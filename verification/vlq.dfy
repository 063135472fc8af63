/** Variable-length quantities, ZigZag and short strings (src/transport/vlq.rs). */
module Vlq {
  import opened Types
  import opened ByteIO
  import opened Bits

  const MAX_VLQ_LENGTH: nat := 256 * 1024

  // ----- Writing -----

  /** Groups of seven bits, least significant first, with a continuation bit on all but the last. */
  function Encode(value: nat): (r: Bytes)
    ensures r != []
  {
    if value < 128 then [value] else [value % 128 + 128] + Encode(value / 128)
  }

  method WriteVlq(buf: Buffer, v: u64)
    modifies buf
    ensures buf.data == old(buf.data) + Encode(v)
  {
    var value: nat := v;
    while true
      invariant buf.data + Encode(value) == old(buf.data) + Encode(v)
      decreases value
    {
      var low: byte := value % 128;
      ghost var rest := value;
      value := value / 128;
      if value == 0 {
        buf.Push(low);
        break;
      }
      ContinuationBit(low);
      ghost var before := buf.data;
      buf.Push(Or(low, 0x80));
      EncodeStep(before, rest);
    }
  }

  lemma ContinuationBit(low: nat)
    requires low < 128
    ensures Or(low, 0x80) == low + 128
  {
    Powers();
    OrDisjoint(low, 1, 7);
  }

  lemma EncodeStep(before: Bytes, value: nat)
    requires value >= 128
    ensures before + [value % 128 + 128] + Encode(value / 128) == before + Encode(value)
  {
  }

  /** A u64 takes one to ten bytes. */
  lemma {:induction false} EncodeLength(value: nat, groups: nat)
    requires groups > 0 && value < Pow2(7 * groups)
    ensures 1 <= |Encode(value)| <= groups
  {
    if value >= 128 {
      Pow2Add(7, 7 * (groups - 1));
      assert Pow2(7) == 128;
      EncodeLength(value / 128, groups - 1);
    }
  }

  lemma {:induction false} EncodeMonotone(a: nat, b: nat)
    requires a <= b
    ensures |Encode(a)| <= |Encode(b)|
  {
    if a >= 128 {
      EncodeMonotone(a / 128, b / 128);
    }
  }

  // ----- Reading -----

  /** The sum of the seven-bit groups at `pos`, of which `k` earlier ones were already read.
      A tenth group that asks for an eleventh is an overflow. */
  function GroupsAt(d: Bytes, pos: nat, k: nat): (r: Parsed<nat>)
    requires k < 10
    ensures r.Got? ==> pos < r.next <= |d| && r.next - pos <= 10 - k
    decreases 10 - k
  {
    if pos >= |d| then Fail(UnexpectedEof)
    else if d[pos] < 128 then Got(d[pos], pos + 1)
    else if k == 9 then Fail(InvalidData)
    else
      match GroupsAt(d, pos + 1, k + 1)
      case Got(v, next) => Got(d[pos] - 128 + 128 * v, next)
      case Fail(e) => Fail(e)
  }

  /** `read_vlq`: the sum of the groups, cut to 64 bits. */
  function VlqAt(d: Bytes, pos: nat): (r: Parsed<u64>)
    ensures r.Got? ==> pos < r.next <= |d| && r.next - pos <= 10
  {
    match GroupsAt(d, pos, 0)
    case Got(v, next) => Got(v % U64_LIMIT, next)
    case Fail(e) => Fail(e)
  }

  function VlqLengthAt(d: Bytes, pos: nat): (r: Parsed<nat>)
    ensures r.Got? ==> pos < r.next <= |d| && r.value <= MAX_VLQ_LENGTH
  {
    match VlqAt(d, pos)
    case Got(v, next) => if v > MAX_VLQ_LENGTH then Fail(InvalidData) else Got(v, next)
    case Fail(e) => Fail(e)
  }

  /** `a << b` on a u64. */
  function Shl64(a: nat, b: nat): u64 {
    assert U64_LIMIT > 0;
    a * Pow2(b) % U64_LIMIT
  }

  /** `k` groups with value `low` have been read; the whole is `low` plus what follows, shifted. */
  ghost function Combine(low: nat, k: nat, rest: Parsed<nat>): Parsed<nat> {
    match rest
    case Got(v, next) => Got(low + v * Pow2(7 * k), next)
    case Fail(e) => Fail(e)
  }

  lemma Distribute(low: nat, p: nat, g: nat, v: nat)
    ensures low + (g + 128 * v) * p == low + g * p + v * (128 * p)
  {
    assert (g + 128 * v) * p == g * p + (128 * v) * p;
    assert (128 * v) * p == v * (128 * p);
  }

  lemma Pow2Group(k: nat)
    ensures Pow2(7 * (k + 1)) == 128 * Pow2(7 * k)
  {
    Pow2Add(7, 7 * k);
    assert Pow2(7) == 128;
  }

  lemma CombineStep(low: nat, d: Bytes, pos: nat, k: nat)
    requires k < 9 && pos < |d| && d[pos] >= 128
    ensures Combine(low, k, GroupsAt(d, pos, k)) ==
            Combine(low + (d[pos] - 128) * Pow2(7 * k), k + 1, GroupsAt(d, pos + 1, k + 1))
  {
    var rest := GroupsAt(d, pos + 1, k + 1);
    if rest.Got? {
      Pow2Group(k);
      Distribute(low, Pow2(7 * k), d[pos] - 128, rest.value);
    }
  }

  lemma GroupFits(low: nat, g: nat, p: nat)
    requires low < p && g < 128
    ensures low + g * p < 128 * p
  {
    assert g * p <= 127 * p;
  }

  lemma {:induction false} Pow2Monotone(a: nat, b: nat)
    requires a <= b
    ensures Pow2(a) <= Pow2(b)
  {
    if a < b {
      Pow2Monotone(a, b - 1);
    }
  }

  lemma ModSmall(x: nat, m: nat)
    requires x < m
    ensures x % m == x
  {
  }

  /** Reading one of the first nine groups on top of `low`: or-ing it in is adding it. */
  lemma OrGroup(low: nat, k: nat, g: nat)
    requires k < 9 && low < Pow2(7 * k) && g < 128
    ensures Or(low, Shl64(g, 7 * k)) == low + g * Pow2(7 * k)
    ensures low + g * Pow2(7 * k) < Pow2(7 * (k + 1)) < U64_LIMIT
  {
    assert Pow2(7 * (k + 1)) < U64_LIMIT by {
      Pow2Monotone(7 * (k + 1), 63);
      Powers();
    }
    Pow2Group(k);
    var p := Pow2(7 * k);
    GroupFits(low, g, p);
    ModSmall(g * p, U64_LIMIT);
    OrDisjoint(low, g, 7 * k);
  }

  lemma TenthGroup(low: nat, g: nat)
    requires low < 0x8000_0000_0000_0000
    ensures g * 0x8000_0000_0000_0000 % U64_LIMIT == g % 2 * 0x8000_0000_0000_0000
    ensures (low + g * 0x8000_0000_0000_0000) % U64_LIMIT == low + g % 2 * 0x8000_0000_0000_0000
  {
    assert g == g / 2 * 2 + g % 2;
    assert g * 0x8000_0000_0000_0000 == g / 2 * U64_LIMIT + g % 2 * 0x8000_0000_0000_0000;
  }

  /** Of the tenth group only the lowest bit fits into 64 bits. */
  lemma OrTenthGroup(low: nat, g: nat)
    requires low < Pow2(63) && g < 128
    ensures Or(low, Shl64(g, 63)) == (low + g * Pow2(63)) % U64_LIMIT
  {
    hide Or, Pow2;
    var p := Pow2(63);
    assert p == 0x8000_0000_0000_0000 by { Powers(); }
    TenthGroup(low, g);
    OrDisjoint(low, g % 2, 63);
  }

  /** What reading the byte at `pos` as group `k` contributes. */
  lemma GroupStep(d: Bytes, pos: nat, k: nat, low: nat)
    requires k < 10 && pos < |d| && low < Pow2(7 * k)
    ensures var next := Or(low, Shl64(d[pos] % 128, 7 * k));
            var whole := Combine(low, k, GroupsAt(d, pos, k));
            && next < U64_LIMIT
            && (d[pos] < 128 ==> whole.Got? && whole.next == pos + 1 && whole.value % U64_LIMIT == next)
            && (d[pos] >= 128 && k < 9 ==>
                  next < Pow2(7 * (k + 1)) && whole == Combine(next, k + 1, GroupsAt(d, pos + 1, k + 1)))
            && (d[pos] >= 128 && k == 9 ==> whole == Fail(InvalidData))
  {
    hide Or, Shl64, Pow2;
    var g := d[pos] % 128;
    assert g < 128 && (d[pos] < 128 ==> g == d[pos]) && (d[pos] >= 128 ==> g == d[pos] - 128);
    if k < 9 {
      OrGroup(low, k, g);
      if d[pos] >= 128 {
        CombineStep(low, d, pos, k);
      } else {
        ModSmall(low + g * Pow2(7 * k), U64_LIMIT);
      }
    } else {
      OrTenthGroup(low, g);
    }
  }

  lemma GroupsEnd(d: Bytes, pos: nat, k: nat)
    requires k < 10
    ensures pos >= |d| ==> GroupsAt(d, pos, k) == Fail(UnexpectedEof)
  {
  }

  method ReadVlq(c: Cursor) returns (r: Result<u64>)
    modifies c
    ensures r == VlqAt(c.data, old(c.pos)).ToResult()
    ensures r.Ok? ==> c.pos == VlqAt(c.data, old(c.pos)).next
  {
    hide GroupsAt, Or, Shl64;
    var result: u64 := 0;
    var shift := 0;
    ghost var k := 0;
    while true
      invariant k < 10 && shift == 7 * k && result < Pow2(7 * k)
      invariant GroupsAt(c.data, old(c.pos), 0) == Combine(result, k, GroupsAt(c.data, c.pos, k))
      decreases 10 - k
    {
      GroupsEnd(c.data, c.pos, k);
      var b :- c.ReadExact(1);
      GroupStep(c.data, c.pos - 1, k, result);
      result := Or(result, Shl64(b[0] % 128, shift));
      if b[0] < 128 {
        break;
      }
      shift := shift + 7;
      if shift > 63 {
        return Err(InvalidData);
      }
      k := k + 1;
    }
    r := Ok(result);
  }

  method ReadVlqLength(c: Cursor) returns (r: Result<nat>)
    modifies c
    ensures r == VlqLengthAt(c.data, old(c.pos)).ToResult()
    ensures r.Ok? ==> c.pos == VlqLengthAt(c.data, old(c.pos)).next
  {
    var val :- ReadVlq(c);
    if val > MAX_VLQ_LENGTH {
      return Err(InvalidData);
    }
    r := Ok(val);
  }

  // ----- Reading against writing -----

  lemma {:induction false} GroupsOfEncode(d: Bytes, pos: nat, k: nat, v: nat)
    requires k < 10 && Holds(d, pos, Encode(v)) && |Encode(v)| <= 10 - k
    ensures GroupsAt(d, pos, k) == Got(v, pos + |Encode(v)|)
    decreases v
  {
    assert d[pos..pos + |Encode(v)|][0] == d[pos];
    if v >= 128 {
      HoldsAppend(d, pos, [v % 128 + 128], Encode(v / 128));
      GroupsOfEncode(d, pos + 1, k + 1, v / 128);
    }
  }

  /** Every u64 is written in at most ten bytes and read back from them, wherever they stand
      and whatever follows. */
  lemma RoundTrip(d: Bytes, pos: nat, v: u64)
    requires Holds(d, pos, Encode(v))
    ensures |Encode(v)| <= 10
    ensures VlqAt(d, pos) == Got(v, pos + |Encode(v)|)
  {
    hide Pow2, Encode, GroupsAt;
    Powers();
    Pow2Monotone(64, 70);
    EncodeLength(v, 10);
    GroupsOfEncode(d, pos, 0, v);
  }

  lemma LengthRoundTrip(d: Bytes, pos: nat, v: nat)
    requires Holds(d, pos, Encode(v)) && v <= MAX_VLQ_LENGTH
    ensures VlqLengthAt(d, pos) == Got(v, pos + |Encode(v)|)
  {
    RoundTrip(d, pos, v);
  }

  lemma {:induction false} GroupsShortest(d: Bytes, pos: nat, k: nat)
    requires k < 10 && GroupsAt(d, pos, k).Got?
    ensures |Encode(GroupsAt(d, pos, k).value)| <= GroupsAt(d, pos, k).next - pos
    decreases 10 - k
  {
    if d[pos] >= 128 {
      GroupsShortest(d, pos + 1, k + 1);
      var v := GroupsAt(d, pos + 1, k + 1).value;
      if v > 0 {
        assert (d[pos] - 128 + 128 * v) / 128 == v;
      }
    }
  }

  /** No byte sequence that reads as `v` is shorter than what is written for `v`. */
  lemma Shortest(d: Bytes, pos: nat)
    requires VlqAt(d, pos).Got?
    ensures |Encode(VlqAt(d, pos).value)| <= VlqAt(d, pos).next - pos
  {
    GroupsShortest(d, pos, 0);
    var v := GroupsAt(d, pos, 0).value;
    ModAtMost(v, U64_LIMIT);
    EncodeMonotone(v % U64_LIMIT, v);
  }

  lemma ModAtMost(v: nat, m: nat)
    requires m > 0
    ensures v % m <= v
  {
    if v < m {
      ModSmall(v, m);
    }
  }

  /** A VLQ code: one to ten bytes, all but the last with the continuation bit. */
  predicate IsCode(s: Bytes) {
    1 <= |s| <= 10 && s[|s| - 1] < 128 && forall i :: 0 <= i < |s| - 1 ==> s[i] >= 128
  }

  /** The number whose seven-bit digits, least significant first, are the bytes of `s`. */
  function GroupSum(s: Bytes): nat {
    if s == [] then 0 else s[0] % 128 + 128 * GroupSum(s[1..])
  }

  lemma {:induction false} GroupsAreCode(d: Bytes, pos: nat, k: nat, n: nat)
    requires k < 10 && pos < n <= |d|
    ensures GroupsAt(d, pos, k).Got? && GroupsAt(d, pos, k).next == n <==>
            IsCode(d[pos..n]) && n - pos <= 10 - k
    ensures IsCode(d[pos..n]) && n - pos <= 10 - k ==> GroupsAt(d, pos, k).value == GroupSum(d[pos..n])
    decreases n - pos
  {
    var s := d[pos..n];
    assert s[1..] == d[pos + 1..n];
    if d[pos] < 128 {
      assert IsCode(s) ==> |s| == 1;
      assert |s| == 1 ==> GroupSum(s[1..]) == 0;
    } else if n == pos + 1 {
      assert s[0] == d[pos];
    } else if k < 9 {
      GroupsAreCode(d, pos + 1, k + 1, n);
      CodeTail(s);
    }
  }

  lemma CodeTail(s: Bytes)
    requires |s| > 1 && s[0] >= 128
    ensures IsCode(s) <==> IsCode(s[1..]) && |s| <= 10
  {
    if IsCode(s[1..]) {
      forall i | 0 < i < |s| - 1
        ensures s[i] >= 128
      {
        assert s[i] == s[1..][i - 1];
      }
    }
  }

  /** Reading succeeds exactly on codes, consumes exactly the code, and yields the sum of its
      groups modulo 2^64: a non-minimal code and one with excess bits in the tenth group are
      accepted. */
  lemma ReadsExactlyCodes(d: Bytes, pos: nat, n: nat)
    requires pos <= n <= |d|
    ensures VlqAt(d, pos).Got? && VlqAt(d, pos).next == n <==> IsCode(d[pos..n])
    ensures IsCode(d[pos..n]) ==> VlqAt(d, pos).value == GroupSum(d[pos..n]) % U64_LIMIT
  {
    if pos < n {
      GroupsAreCode(d, pos, 0, n);
    }
  }

  /** Reading fails as invalid exactly when ten bytes in a row ask for another one, and runs out of
      input exactly when fewer are left and all of them do. */
  lemma {:induction false} ReadErrors(d: Bytes, pos: nat)
    requires pos <= |d|
    ensures VlqAt(d, pos) == Fail(InvalidData) <==> |d| - pos >= 10 && forall i :: pos <= i < pos + 10 ==> d[i] >= 128
    ensures VlqAt(d, pos) == Fail(UnexpectedEof) <==> |d| - pos < 10 && forall i :: pos <= i < |d| ==> d[i] >= 128
  {
    hide GroupsAt;
    GroupErrors(d, pos, 0);
  }

  lemma {:induction false} GroupErrors(d: Bytes, pos: nat, k: nat)
    requires k < 10 && pos <= |d|
    ensures GroupsAt(d, pos, k) == Fail(InvalidData) <==>
            |d| - pos >= 10 - k && forall i :: pos <= i < pos + 10 - k ==> d[i] >= 128
    ensures GroupsAt(d, pos, k) == Fail(UnexpectedEof) <==>
            |d| - pos < 10 - k && forall i :: pos <= i < |d| ==> d[i] >= 128
    ensures GroupsAt(d, pos, k) != Fail(ConnectionReset)
    decreases 10 - k
  {
    if pos < |d| && d[pos] >= 128 && k < 9 {
      GroupErrors(d, pos + 1, k + 1);
    }
  }

  /** Appending a group adds it at the most significant end. */
  lemma {:induction false} GroupSumSnoc(s: Bytes, b: byte)
    ensures GroupSum(s + [b]) == GroupSum(s) + (b % 128) * Pow2(7 * |s|)
  {
    if s == [] {
      assert s + [b] == [b];
      assert GroupSum([b][1..]) == 0;
    } else {
      assert (s + [b])[1..] == s[1..] + [b];
      GroupSumSnoc(s[1..], b);
      Pow2Group(|s| - 1);
      ShiftGroup(b % 128, Pow2(7 * (|s| - 1)));
    }
  }

  lemma ShiftGroup(g: nat, p: nat)
    ensures 128 * (g * p) == g * (128 * p)
  {
  }

  lemma {:induction false} GroupSumBound(s: Bytes)
    ensures GroupSum(s) < Pow2(7 * |s|)
  {
    if s != [] {
      GroupSumBound(s[1..]);
      Pow2Group(|s| - 1);
    }
  }

  /** The value of ten groups: the first nine, and the tenth times 2^63. */
  lemma TenGroups(s: Bytes)
    requires |s| == 10
    ensures GroupSum(s[..9]) < 0x8000_0000_0000_0000
    ensures var g: nat := s[9] % 128; GroupSum(s) == GroupSum(s[..9]) + g * 0x8000_0000_0000_0000
  {
    hide GroupSum, Pow2;
    GroupSumBound(s[..9]);
    GroupSumSnoc(s[..9], s[9]);
    assert s[..9] + [s[9]] == s;
    assert Pow2(63) == 0x8000_0000_0000_0000 by { Powers(); }
  }

  lemma FewGroups(s: Bytes)
    requires |s| < 10
    ensures GroupSum(s) < 0x8000_0000_0000_0000
  {
    hide GroupSum, Pow2;
    GroupSumBound(s);
    Pow2Monotone(7 * |s|, 63);
    assert Pow2(63) == 0x8000_0000_0000_0000 by { Powers(); }
  }

  /** The written promise that more than 63 useful bits are an error holds of a code if and only
      if the code has no tenth byte or a zero one; and what is read is the number written if and
      only if the tenth byte, if any, is at most one. */
  lemma {:induction false} OverflowRejectedIff(d: Bytes, pos: nat, n: nat)
    requires pos <= n <= |d| && IsCode(d[pos..n])
    ensures (GroupSum(d[pos..n]) >= 0x8000_0000_0000_0000 ==> VlqAt(d, pos).Fail?) <==>
            n - pos < 10 || d[pos + 9] == 0
    ensures VlqAt(d, pos) == Got(GroupSum(d[pos..n]), n) <==> n - pos < 10 || d[pos + 9] <= 1
  {
    hide GroupSum, VlqAt;
    ReadsExactlyCodes(d, pos, n);
    var s := d[pos..n];
    if |s| < 10 {
      FewGroups(s);
      ModSmall(GroupSum(s), U64_LIMIT);
    } else {
      TenGroups(s);
      assert s[9] == d[pos + 9] < 128;
      CutIff(GroupSum(s[..9]), s[9]);
    }
  }

  lemma CutIff(low: nat, g: nat)
    requires low < 0x8000_0000_0000_0000
    ensures (low + g * 0x8000_0000_0000_0000) % U64_LIMIT == low + g * 0x8000_0000_0000_0000 <==> g <= 1
  {
    TenthGroup(low, g);
  }

  /** Nine empty groups and a tenth of two say 2^64, and are read as zero without an error. */
  lemma OverflowReadAsZero()
    ensures var d: Bytes := [128, 128, 128, 128, 128, 128, 128, 128, 128, 2];
            GroupSum(d) == U64_LIMIT && VlqAt(d, 0) == Got(0, 10)
  {
    hide GroupSum, VlqAt;
    var d: Bytes := [128, 128, 128, 128, 128, 128, 128, 128, 128, 2];
    assert d[0..10] == d;
    TenGroups(d);
    ZeroGroups(d[..9]);
    ReadsExactlyCodes(d, 0, 10);
  }

  lemma {:induction false} ZeroGroups(s: Bytes)
    requires forall i :: 0 <= i < |s| ==> s[i] == 128
    ensures GroupSum(s) == 0
  {
    if s != [] {
      ZeroGroups(s[1..]);
    }
  }

  lemma {:induction false} GroupsLocal(d: Bytes, d2: Bytes, pos: nat, k: nat)
    requires k < 10 && GroupsAt(d, pos, k).Got? && Same(d, d2, GroupsAt(d, pos, k).next)
    ensures SameOutcome(GroupsAt(d, pos, k), GroupsAt(d2, pos, k), d2)
    decreases 10 - k
  {
    if pos < |d2| && d[pos] >= 128 {
      GroupsLocal(d, d2, pos + 1, k + 1);
    }
  }

  /** A successful read depends on nothing behind the code, and a truncated code is an
      unexpected end of input. */
  lemma {:induction false} VlqLocal(d: Bytes, d2: Bytes, pos: nat)
    requires VlqAt(d, pos).Got? && Same(d, d2, VlqAt(d, pos).next)
    ensures SameOutcome(VlqAt(d, pos), VlqAt(d2, pos), d2)
  {
    GroupsLocal(d, d2, pos, 0);
  }

  lemma VlqLengthLocal(d: Bytes, d2: Bytes, pos: nat)
    requires VlqLengthAt(d, pos).Got? && Same(d, d2, VlqLengthAt(d, pos).next)
    ensures SameOutcome(VlqLengthAt(d, pos), VlqLengthAt(d2, pos), d2)
  {
    VlqLocal(d, d2, pos);
  }

  /** No written number is a proper prefix of another. */
  lemma PrefixFree(a: u64, b: u64)
    requires Encode(a) <= Encode(b)
    ensures a == b
  {
    RoundTrip(Encode(b), 0, a);
    RoundTrip(Encode(b), 0, b);
  }

  // ----- ZigZag, for any word width -----

  predicate InRange(w: nat, x: int)
    requires w > 0
  {
    0 <= x + Pow2(w - 1) < Pow2(w)
  }

  /** Two's complement. */
  function ToWord(w: nat, x: int): (r: nat)
    ensures r < Pow2(w)
  {
    x % Pow2(w)
  }

  function FromWord(w: nat, n: nat): int
    requires w > 0
  {
    if n < Pow2(w - 1) then n else n - Pow2(w)
  }

  /** `((value << 1) ^ (value >> (w - 1))) as unsigned`; the right shift copies the sign bit. */
  function ZigZagEncode(w: nat, value: int): nat {
    Xor(w, ToWord(w, 2 * value), ToWord(w, if value < 0 then -1 else 0))
  }

  /** `((value >> 1) as signed) ^ (-((value & 1) as signed))`. */
  function ZigZagDecode(w: nat, value: nat): int
    requires w > 0
  {
    FromWord(w, Xor(w, value / 2, ToWord(w, -(value % 2))))
  }

  /** 0, -1, 1, -2, 2, ... are numbered 0, 1, 2, 3, 4, ... */
  function Number(x: int): nat {
    if x >= 0 then 2 * x else -2 * x - 1
  }

  lemma WrapNegative(x: int, m: nat)
    requires 0 <= x + m < m
    ensures x % m == x + m
  {
  }

  lemma ToWordValue(w: nat, x: int)
    requires 0 <= x + Pow2(w) < 2 * Pow2(w)
    ensures ToWord(w, x) == if x >= 0 then x else x + Pow2(w)
  {
    if x >= 0 {
      ModSmall(x, Pow2(w));
    } else {
      WrapNegative(x, Pow2(w));
    }
  }

  lemma Halves(w: nat)
    requires w > 0
    ensures Pow2(w) == 2 * Pow2(w - 1)
  {
  }

  /** Exclusive or with a sign word. */
  lemma XorSign(w: nat, a: nat, sign: nat)
    requires a < Pow2(w) && (sign == 0 || sign == Pow2(w) - 1)
    ensures Xor(w, a, sign) == if sign == 0 then a else Pow2(w) - 1 - a
  {
    if sign == 0 {
      XorZero(w, a);
    } else {
      XorOnes(w, a);
    }
  }

  lemma ZigZagEncodeValue(w: nat, x: int)
    requires w > 0 && InRange(w, x)
    ensures ZigZagEncode(w, x) == Number(x) && Number(x) < Pow2(w)
  {
    var a, sign := ToWord(w, 2 * x), ToWord(w, if x < 0 then -1 else 0);
    Halves(w);
    ToWordValue(w, 2 * x);
    ToWordValue(w, if x < 0 then -1 else 0);
    XorSign(w, a, sign);
  }

  lemma ZigZagDecodeValue(w: nat, n: nat)
    requires w > 0 && n < Pow2(w)
    ensures InRange(w, ZigZagDecode(w, n)) && Number(ZigZagDecode(w, n)) == n
  {
    hide Xor, ToWord;
    Halves(w);
    ToWordValue(w, -(n % 2));
    XorSign(w, n / 2, ToWord(w, -(n % 2)));
  }

  lemma NumberInjective(x: int, y: int)
    requires Number(x) == Number(y)
    ensures x == y
  {
  }

  /** ZigZag is the numbering 0, -1, 1, -2, ... and a bijection between the signed and the
      unsigned words of any width (32 and 64 in the code): each direction inverts the other. */
  lemma {:induction false} ZigZagBijection(w: nat, x: int, n: nat)
    requires w > 0 && InRange(w, x) && n < Pow2(w)
    ensures ZigZagEncode(w, x) == Number(x)
    ensures ZigZagDecode(w, ZigZagEncode(w, x)) == x
    ensures InRange(w, ZigZagDecode(w, n)) && ZigZagEncode(w, ZigZagDecode(w, n)) == n
  {
    ZigZagEncodeValue(w, x);
    ZigZagDecodeValue(w, Number(x));
    NumberInjective(x, ZigZagDecode(w, Number(x)));
    ZigZagDecodeValue(w, n);
    ZigZagEncodeValue(w, ZigZagDecode(w, n));
  }

  // ----- Short strings -----

  /** The length cast to a byte, then the bytes; a release build does not check the length. */
  function ShortString(s: Bytes): Bytes {
    [|s| % 256] + s
  }

  method WriteShortString(buf: Buffer, s: Bytes)
    modifies buf
    ensures buf.data == old(buf.data) + ShortString(s)
  {
    buf.Push(|s| % 256);
    buf.Extend(s);
  }

  /** Strings are their UTF-8 bytes; which byte sequences are valid UTF-8 is a parameter. */
  function ShortStringAt(utf8: Bytes -> bool, d: Bytes, pos: nat): (r: Parsed<Bytes>)
    ensures r.Got? ==> r.next == pos + 1 + |r.value| <= |d| && |r.value| <= 255 && utf8(r.value)
  {
    if pos >= |d| then Fail(UnexpectedEof)
    else
      match ExactAt(d, pos + 1, d[pos])
      case Got(s, next) => if utf8(s) then Got(s, next) else Fail(InvalidData)
      case Fail(e) => Fail(e)
  }

  method ReadShortString(utf8: Bytes -> bool, c: Cursor) returns (r: Result<Bytes>)
    modifies c
    ensures r == ShortStringAt(utf8, c.data, old(c.pos)).ToResult()
    ensures r.Ok? ==> c.pos == ShortStringAt(utf8, c.data, old(c.pos)).next
  {
    var len :- c.ReadExact(1);
    var bytes :- c.ReadExact(len[0]);
    if !utf8(bytes) {
      return Err(InvalidData);
    }
    r := Ok(bytes);
  }

  /** A string is read back, with any bytes around it, if and only if it is at most 255 long. */
  lemma ShortStringRoundTrip(utf8: Bytes -> bool, d: Bytes, pos: nat, s: Bytes)
    requires utf8(s) && Holds(d, pos, ShortString(s))
    ensures ShortStringAt(utf8, d, pos) == Got(s, pos + 1 + |s|) <==> |s| <= 255
  {
    HoldsAppend(d, pos, [|s| % 256], s);
    assert d[pos..pos + 1][0] == d[pos];
  }

  /** A string that is cut off runs out of input; one that is complete is invalid exactly when it is
      not UTF-8. */
  lemma ShortStringErrors(utf8: Bytes -> bool, d: Bytes, pos: nat)
    ensures ShortStringAt(utf8, d, pos) == Fail(UnexpectedEof) <==> pos >= |d| || pos + 1 + d[pos] > |d|
    ensures ShortStringAt(utf8, d, pos) == Fail(InvalidData) <==>
            pos < |d| && pos + 1 + d[pos] <= |d| && !utf8(d[pos + 1..pos + 1 + d[pos]])
  {
  }

  lemma ShortStringLocal(utf8: Bytes -> bool, d: Bytes, d2: Bytes, pos: nat)
    requires ShortStringAt(utf8, d, pos).Got? && Same(d, d2, ShortStringAt(utf8, d, pos).next)
    ensures SameOutcome(ShortStringAt(utf8, d, pos), ShortStringAt(utf8, d2, pos), d2)
  {
    if pos < |d2| {
      ExactLocal(d, d2, pos + 1, d[pos]);
    }
  }
}
