/** Log records, their byte encoding, and the longest recent window within a byte budget. */
module LogRecords {
  import opened Octets

  const HDR_BYTES: nat := 16
  const TAG_MAX: nat := 31
  const MSG_MAX: nat := 480

  datatype Record = Record(msc: nat, level: byte, tag: seq<byte>, msg: seq<byte>)

  ghost predicate Fits(r: Record)
  {
    r.msc < 0x1_0000_0000_0000_0000 && |r.tag| <= TAG_MAX && |r.msg| <= MSG_MAX
  }

  ghost predicate AllFit(rs: seq<Record>)
  {
    forall i :: 0 <= i < |rs| ==> Fits(rs[i])
  }

  /** A runaway line is truncated, never rejected. */
  function Truncated(level: int, tag: seq<byte>, msc: nat, msg: seq<byte>): (r: Record)
    requires msc < 0x1_0000_0000_0000_0000
    ensures Fits(r) && r.msc == msc && r.level == level % 256
    ensures r.tag <= tag && |r.tag| == (if |tag| < TAG_MAX then |tag| else TAG_MAX)
    ensures r.msg <= msg && |r.msg| == (if |msg| < MSG_MAX then |msg| else MSG_MAX)
  {
    Record(msc, level % 256,
           if |tag| > TAG_MAX then tag[..TAG_MAX] else tag,
           if |msg| > MSG_MAX then msg[..MSG_MAX] else msg)
  }

  // ---------------- records as bytes ----------------

  function Size(r: Record): (n: nat)
    ensures n >= HDR_BYTES
  {
    HDR_BYTES + |r.tag| + |r.msg|
  }

  function Header(r: Record): (h: seq<byte>)
    requires Fits(r)
    ensures |h| == HDR_BYTES
  {
    Bytes(Size(r), 4) + Bytes(r.msc, 8) + Bytes(|r.msg|, 2) + [r.level, |r.tag|]
  }

  function Encode(r: Record): (s: seq<byte>)
    requires Fits(r)
    ensures |s| == Size(r)
  {
    Header(r) + r.tag + r.msg
  }

  /** Every field of the header can be read back. */
  lemma HeaderFields(r: Record)
    requires Fits(r)
    ensures var h := Header(r);
            && Number(h[..4]) == Size(r) && Number(h[4..12]) == r.msc && Number(h[12..14]) == |r.msg|
            && h[14] == r.level && h[15] == |r.tag|
  {
    var h := Header(r);
    assert h[..4] == Bytes(Size(r), 4) && h[4..12] == Bytes(r.msc, 8) && h[12..14] == Bytes(|r.msg|, 2);
    Powers();
    NumberOfBytes(Size(r), 4);
    NumberOfBytes(r.msc, 8);
    NumberOfBytes(|r.msg|, 2);
  }

  function EncodeAll(rs: seq<Record>): seq<byte>
    requires AllFit(rs)
  {
    if rs == [] then [] else Encode(rs[0]) + EncodeAll(rs[1..])
  }

  function TotalSize(rs: seq<Record>): nat
  {
    if rs == [] then 0 else Size(rs[0]) + TotalSize(rs[1..])
  }

  lemma {:induction false} EncodeAllSize(rs: seq<Record>)
    requires AllFit(rs)
    ensures |EncodeAll(rs)| == TotalSize(rs)
  {
    if rs != [] {
      EncodeAllSize(rs[1..]);
    }
  }

  lemma {:induction false} EncodeAllThen(rs: seq<Record>, r: Record)
    requires AllFit(rs) && Fits(r)
    ensures EncodeAll(rs + [r]) == EncodeAll(rs) + Encode(r)
    ensures TotalSize(rs + [r]) == TotalSize(rs) + Size(r)
  {
    if rs == [] {
      assert rs + [r] == [r] && [r][1..] == [];
      assert Encode(r) + [] == Encode(r);
    } else {
      EncodeAllThen(rs[1..], r);
      assert (rs + [r])[1..] == rs[1..] + [r] && (rs + [r])[0] == rs[0];
      assert Encode(rs[0]) + (EncodeAll(rs[1..]) + Encode(r)) == Encode(rs[0]) + EncodeAll(rs[1..]) + Encode(r);
    }
  }

  // ---------------- the recent window within a budget ----------------

  /** Skip the oldest records until the rest is within the budget. */
  function Recent(rs: seq<Record>, budget: nat): seq<Record>
  {
    if rs != [] && TotalSize(rs) > budget then Recent(rs[1..], budget) else rs
  }

  /** The window is a suffix within the budget, and no longer suffix is. */
  lemma {:induction false} RecentIsLongest(rs: seq<Record>, budget: nat)
    ensures var k := |rs| - |Recent(rs, budget)|;
            && 0 <= k && Recent(rs, budget) == rs[k..] && TotalSize(rs[k..]) <= budget
            && forall j :: 0 <= j < k ==> TotalSize(rs[j..]) > budget
  {
    if rs != [] && TotalSize(rs) > budget {
      RecentIsLongest(rs[1..], budget);
      var k := |rs| - |Recent(rs, budget)|;
      forall j | 0 <= j < k ensures TotalSize(rs[j..]) > budget {
        if j > 0 { assert rs[j..] == rs[1..][j - 1..]; }
      }
      assert rs[k..] == rs[1..][k - 1..];
    } else {
      assert rs[0..] == rs;
    }
  }

  /** A smaller budget applied to a window is the smaller budget applied to everything. */
  lemma {:induction false} RecentNested(rs: seq<Record>, large: nat, small: nat)
    requires small <= large
    ensures Recent(Recent(rs, large), small) == Recent(rs, small)
  {
    if rs != [] && TotalSize(rs) > large {
      RecentNested(rs[1..], large, small);
    }
  }

  lemma {:induction false} RecentThen(rs: seq<Record>, r: Record, budget: nat)
    requires Size(r) <= budget && Fits(r) && AllFit(rs)
    ensures Recent(rs + [r], budget) == Recent(rs, budget - Size(r)) + [r]
  {
    EncodeAllThen(rs, r);
    if rs != [] && TotalSize(rs) > budget - Size(r) {
      RecentThen(rs[1..], r, budget);
      assert (rs + [r])[1..] == rs[1..] + [r];
    } else if rs == [] {
      assert rs + [r] == [r];
    }
  }

  /** A line within the limits that was appended last comes back, unchanged, as the last record of any
      window whose budget covers it; a longer one comes back with its first 31 and 480 bytes. */
  lemma LastLineComesBack(rs: seq<Record>, level: int, tag: seq<byte>, msc: nat, msg: seq<byte>, budget: nat)
    requires AllFit(rs) && msc < 0x1_0000_0000_0000_0000
    requires Size(Truncated(level, tag, msc, msg)) <= budget
    ensures var out := Recent(rs + [Truncated(level, tag, msc, msg)], budget);
            && out != []
            && (|tag| <= TAG_MAX && |msg| <= MSG_MAX ==> out[|out| - 1] == Record(msc, level % 256, tag, msg))
            && (|tag| > TAG_MAX ==> out[|out| - 1].tag == tag[..TAG_MAX])
            && (|msg| > MSG_MAX ==> out[|out| - 1].msg == msg[..MSG_MAX])
  {
    RecentThen(rs, Truncated(level, tag, msc, msg), budget);
  }
}
