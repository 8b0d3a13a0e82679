// backend/proto_codec.py: base-128 varints, as in the section "Base 128 Varints" of the
// Protocol Buffers Encoding guide. A byte is a number below 256, so `x & 0x7f` is x % 128,
// `0x80 | bits` is 128 + bits and `x >> 7` is x / 128.
module Base128 {
  type byte = b: nat | b < 256

  function Varint(n: nat): (s: seq<byte>)
    ensures s != []
  {
    if n < 128 then [n] else [128 + n % 128] + Varint(n / 128)
  }

  // Value and remaining input. A varint cut off by the end of the input yields what was read.
  function TakeVarint(s: seq<byte>): (r: (nat, seq<byte>))
    ensures |r.1| <= |s| && (s != [] ==> |r.1| < |s|)
  {
    if s == [] then (0, [])
    else if s[0] < 128 then (s[0], s[1..])
    else
      var (high, rest) := TakeVarint(s[1..]);
      (s[0] - 128 + 128 * high, rest)
  }

  // A whole varint at the front: continuation bytes followed by a final one.
  predicate StartsVarint(s: seq<byte>) {
    s != [] && (s[0] < 128 || StartsVarint(s[1..]))
  }

  // A varint and nothing else.
  predicate IsVarint(s: seq<byte>) {
    s != [] && if s[0] < 128 then |s| == 1 else IsVarint(s[1..])
  }

  // x << n
  function Shl(x: nat, n: nat): nat {
    if n == 0 then x else 2 * Shl(x, n - 1)
  }

  method EncodeVarint(n: nat) returns (result: seq<byte>)
    ensures result == Varint(n)
  {
    var bits: nat, value: nat := n % 128, n / 128;
    result := [];
    while value != 0
      invariant bits < 128 && Varint(n) == result + Varint(value * 128 + bits)
      decreases value
    {
      assert Varint(value * 128 + bits) == [128 + bits] + Varint(value);
      result := result + [128 + bits];
      bits, value := value % 128, value / 128;
    }
    result := result + [bits];
  }

  // `result |= (b & 0x7f) << shift` adds, because result stays below 1 << shift.
  method DecodeVarint(data: seq<byte>, start: nat) returns (result: nat, pos: nat)
    requires start <= |data|
    ensures start <= pos <= |data| && (start < |data| ==> start < pos)
    ensures (result, data[pos..]) == TakeVarint(data[start..])
  {
    var shift: nat := 0;
    result, pos := 0, start;
    ghost var (value, rest) := TakeVarint(data[start..]);
    while pos < |data|
      invariant start <= pos <= |data| && (shift > 0 ==> start < pos)
      invariant Reading(data, pos, shift, result, value, rest)
      decreases |data| - pos
    {
      var b: nat := data[pos];
      ReadNext(data, pos, shift, result, value, rest);
      pos := pos + 1;
      result := result + Shl(b % 128, shift);
      if b < 128 {
        return;
      }
      shift := shift + 7;
    }
    ShlZero(shift);
  }

  // So many low bits of the number are read, so that adding to the result is or-ing into it.
  ghost predicate Reading(data: seq<byte>, pos: nat, shift: nat, result: nat, value: nat, rest: seq<byte>)
    requires pos <= |data|
  {
    var (high, after) := TakeVarint(data[pos..]);
    result < Shl(1, shift) && value == result + Shl(high, shift) && rest == after
  }

  lemma ReadNext(data: seq<byte>, pos: nat, shift: nat, result: nat, value: nat, rest: seq<byte>)
    requires pos < |data| && Reading(data, pos, shift, result, value, rest)
    ensures data[pos] < 128 ==> value == result + Shl(data[pos] % 128, shift) && rest == data[pos + 1..]
    ensures data[pos] >= 128 ==> Reading(data, pos + 1, shift + 7, result + Shl(data[pos] % 128, shift), value, rest)
  {
    ReadOne(data, pos);
    ShiftIn(data[pos] % 128, TakeVarint(data[pos + 1..]).0, shift);
  }

  lemma ReadOne(data: seq<byte>, pos: nat)
    requires pos < |data|
    ensures data[pos] < 128 ==> TakeVarint(data[pos..]) == (data[pos], data[pos + 1..])
    ensures data[pos] >= 128 ==>
      var (high, rest) := TakeVarint(data[pos + 1..]); TakeVarint(data[pos..]) == (data[pos] - 128 + 128 * high, rest)
  {
    assert data[pos..][1..] == data[pos + 1..];
  }

  lemma {:induction false} ShlAdd(x: nat, y: nat, n: nat)
    ensures Shl(x + y, n) == Shl(x, n) + Shl(y, n)
  {
    if n > 0 {
      ShlAdd(x, y, n - 1);
    }
  }

  lemma {:induction false} ShlSeven(x: nat, n: nat)
    ensures Shl(128 * x, n) == Shl(x, n + 7)
  {
    if n > 0 {
      ShlSeven(x, n - 1);
    } else {
      assert Shl(x, 1) == 2 * x;
      assert Shl(x, 3) == 4 * Shl(x, 1);
      assert Shl(x, 5) == 4 * Shl(x, 3);
      assert Shl(x, 7) == 4 * Shl(x, 5);
    }
  }

  lemma ShlZero(n: nat)
    ensures Shl(0, n) == 0
  {
  }

  // One more group of seven bits: the value splits there and the bound moves up with it.
  lemma ShiftIn(low: nat, high: nat, shift: nat)
    requires low < 128
    ensures Shl(low + 128 * high, shift) == Shl(low, shift) + Shl(high, shift + 7)
    ensures Shl(low, shift) + Shl(1, shift) <= Shl(1, shift + 7)
  {
    ShlAdd(low, 128 * high, shift);
    ShlSeven(high, shift);
    ShlAdd(low + 1, 127 - low, shift);
    ShlAdd(low, 1, shift);
    ShlSeven(1, shift);
  }

  // Decoding inverts encoding, whatever follows.
  lemma {:induction false} VarintRoundTrip(n: nat, rest: seq<byte>)
    ensures TakeVarint(Varint(n) + rest) == (n, rest)
    ensures IsVarint(Varint(n)) && StartsVarint(Varint(n) + rest)
  {
    var s := Varint(n) + rest;
    if n < 128 {
      assert s[1..] == rest;
    } else {
      VarintRoundTrip(n / 128, rest);
      assert s[1..] == Varint(n / 128) + rest;
      assert Varint(n)[1..] == Varint(n / 128);
    }
  }

  function Pow128(k: nat): nat {
    if k == 0 then 1 else 128 * Pow128(k - 1)
  }

  // Byte k holds the k-th group of seven bits, lowest first; all but the last are marked.
  lemma {:induction false} VarintGroups(n: nat, k: nat)
    requires k < |Varint(n)|
    ensures Pow128(k) > 0 && Varint(n)[k] == n / Pow128(k) % 128 + if k + 1 < |Varint(n)| then 128 else 0
    ensures n < Pow128(|Varint(n)|)
    decreases k, n
  {
    PowPositive(k);
    VarintBelow(n);
    if k > 0 {
      VarintGroups(n / 128, k - 1);
      DivideTwice(n, Pow128(k - 1));
    }
  }

  lemma {:induction false} VarintBelow(n: nat)
    ensures n < Pow128(|Varint(n)|)
  {
    if n < 128 {
      assert Pow128(1) == 128 * Pow128(0);
    } else {
      VarintBelow(n / 128);
    }
  }

  lemma {:induction false} PowPositive(k: nat)
    ensures Pow128(k) > 0
  {
    if k > 0 {
      PowPositive(k - 1);
    }
  }

  lemma DivideTwice(n: nat, p: nat)
    requires p > 0
    ensures n / (128 * p) == n / 128 / p
  {
    var q := n / 128 / p;
    assert n / 128 == q * p + n / 128 % p;
    assert n == (q * p + n / 128 % p) * 128 + n % 128;
    assert n == q * (128 * p) + (n / 128 % p * 128 + n % 128);
    QuotientUnique(n, 128 * p, q, n / 128 % p * 128 + n % 128);
  }

  lemma QuotientUnique(n: nat, d: nat, q: nat, r: nat)
    requires d > 0 && n == q * d + r && r < d
    ensures n / d == q
  {
    var k := n / d;
    assert k * d + n % d == q * d + r;
    assert (k - q) * d == r - n % d;
    LargeMultiple(k - q, d);
  }

  lemma LargeMultiple(x: int, d: int)
    requires d > 0
    ensures x >= 1 ==> x * d >= d
    ensures x <= -1 ==> x * d <= -d
  {
    if x >= 1 {
      assert (x - 1) * d >= 0;
    }
    if x <= -1 {
      assert (-x - 1) * d >= 0;
    }
  }

  // ... at any offset.
  lemma VarintAtOffset(pre: seq<byte>, n: nat, rest: seq<byte>)
    ensures TakeVarint((pre + Varint(n) + rest)[|pre|..]) == (n, rest)
  {
    VarintRoundTrip(n, rest);
    Behind(pre, Varint(n), rest);
  }

  lemma Behind(pre: seq<byte>, a: seq<byte>, b: seq<byte>)
    ensures (pre + a + b)[|pre|..] == a + b
  {
  }

  // No varint of the same value is shorter, and none of the same length is different.
  lemma {:induction false} VarintShortest(s: seq<byte>, n: nat)
    requires IsVarint(s) && TakeVarint(s).0 == n
    ensures |Varint(n)| <= |s|
    ensures |Varint(n)| == |s| ==> s == Varint(n)
  {
    if s[0] >= 128 {
      VarintShortest(s[1..], n / 128);
      assert s == [s[0]] + s[1..];
    }
  }

  lemma {:induction false} StartsVarintAppend(s: seq<byte>, t: seq<byte>)
    requires StartsVarint(s)
    ensures StartsVarint(s + t)
    ensures TakeVarint(s + t).0 == TakeVarint(s).0 && TakeVarint(s + t).1 == TakeVarint(s).1 + t
  {
    assert (s + t)[1..] == s[1..] + t;
    if s[0] >= 128 {
      StartsVarintAppend(s[1..], t);
    }
  }
}
