// backend/proto_codec.py: the wire format shared by all decoders, following the sections
// "Message Structure" and "Length-Delimited Records" of the Protocol Buffers Encoding guide.
module Wire {
  import opened Prelude
  import opened Base128
  import opened Utf8

  // The four bytes of a little-endian float.
  datatype Quad = Quad(b0: byte, b1: byte, b2: byte, b3: byte)

  function QuadBytes(q: Quad): seq<byte> {
    [q.b0, q.b1, q.b2, q.b3]
  }

  datatype Token =
    | Number(field: nat, value: nat)             // wire type 0
    | Fixed64(field: nat)                        // wire type 1, skipped unread
    | Chunk(field: nat, payload: seq<byte>)      // wire type 2
    | Fixed32(field: nat, quad: Quad)            // wire type 5
    | Short32(field: nat)                        // wire type 5 with fewer than four bytes left
    | Foreign(wire: nat)                         // any other wire type

  // data[i:j] clamps at the end of the input.
  function Take(s: seq<byte>, n: nat): seq<byte> {
    if n <= |s| then s[..n] else s
  }

  function Drop(s: seq<byte>, n: nat): (r: seq<byte>)
    ensures |r| <= |s| && (n > 0 && s != [] ==> |r| < |s|)
  {
    if n <= |s| then s[n..] else []
  }

  // The first field and the input after it.
  function Lex(s: seq<byte>): (r: (Token, seq<byte>))
    requires s != []
    ensures |r.1| < |s|
  {
    var (key, s1) := TakeVarint(s);
    var field := key / 8;
    match key % 8
    case 0 => var (value, s2) := TakeVarint(s1); (Number(field, value), s2)
    case 1 => (Fixed64(field), Drop(s1, 8))
    case 2 => var (length, s2) := TakeVarint(s1); (Chunk(field, Take(s2, length)), Drop(s2, length))
    case 5 =>
      if |s1| < 4 then (Short32(field), s1)
      else (Fixed32(field, Quad(s1[0], s1[1], s1[2], s1[3])), s1[4..])
    case w => (Foreign(w), s1)
  }

  // What a decoder does with one field: go on, leave the loop, or raise.
  datatype Verdict<M> = Go(message: M) | Stop | Raise

  type Reader<!M> = (Token, M) -> Verdict<M>

  // The decoding loop. A raised exception is turned into None.
  function Decode<M>(s: seq<byte>, m: M, read: Reader<M>): Option<M>
    decreases |s|
  {
    if s == [] then Some(m)
    else
      var (token, rest) := Lex(s);
      match read(token, m)
      case Go(m') => Decode(rest, m', read)
      case Stop => Some(m)
      case Raise => None
  }

  // Whether decoding s leaves the loop early.
  predicate Stops<M>(s: seq<byte>, m: M, read: Reader<M>)
    decreases |s|
  {
    s != [] &&
    var (token, rest) := Lex(s);
    match read(token, m)
    case Go(m') => Stops(rest, m', read)
    case Stop => true
    case Raise => false
  }

  // The first field is all there, and of a wire type the format still uses.
  predicate StartsField(s: seq<byte>) {
    && StartsVarint(s)
    && var (key, s1) := TakeVarint(s);
       match key % 8
       case 0 => StartsVarint(s1)
       case 1 => |s1| >= 8
       case 2 => StartsVarint(s1) && var (length, s2) := TakeVarint(s1); length <= |s2|
       case 5 => |s1| >= 4
       case _ => false
  }

  // A concatenation of whole fields.
  predicate WellFormed(s: seq<byte>)
    decreases |s|
  {
    s != [] ==> StartsField(s) && WellFormed(Lex(s).1)
  }

  // ---- Encoders ----

  function Key(field: nat, wire: nat): seq<byte> {
    Varint(field * 8 + wire)
  }

  function NumberField(field: nat, value: nat): seq<byte> {
    Key(field, 0) + Varint(value)
  }

  function ChunkField(field: nat, payload: seq<byte>): seq<byte> {
    Key(field, 2) + Varint(|payload|) + payload
  }

  function QuadField(field: nat, quad: Quad): seq<byte> {
    Key(field, 5) + QuadBytes(quad)
  }

  // A string, left out when it is empty.
  function StringField(field: nat, t: Text): seq<byte> {
    if t == [] then [] else ChunkField(field, Utf8.Encode(t))
  }

  method EncodeNumber(field: nat, value: nat) returns (s: seq<byte>)
    ensures s == NumberField(field, value)
  {
    var key := EncodeVarint(field * 8 + 0);
    var number := EncodeVarint(value);
    s := key + number;
  }

  method EncodeChunk(field: nat, payload: seq<byte>) returns (s: seq<byte>)
    ensures s == ChunkField(field, payload)
  {
    var key := EncodeVarint(field * 8 + 2);
    var length := EncodeVarint(|payload|);
    s := key + length + payload;
  }

  // Appending piece by piece.
  lemma Regroup(a: seq<byte>, b: seq<byte>, c: seq<byte>, d: seq<byte>, e: seq<byte>, f: seq<byte>)
    ensures a + b + c + d + e + f == a + (b + (c + (d + (e + f))))
  {
  }

  // ---- One field at a time ----

  lemma LexKey(field: nat, wire: nat, rest: seq<byte>)
    requires wire < 8
    ensures TakeVarint(Key(field, wire) + rest) == (field * 8 + wire, rest) && StartsVarint(Key(field, wire) + rest)
    ensures (field * 8 + wire) / 8 == field && (field * 8 + wire) % 8 == wire
  {
    VarintRoundTrip(field * 8 + wire, rest);
  }

  lemma LexNumber(field: nat, value: nat, rest: seq<byte>)
    ensures NumberField(field, value) + rest != []
    ensures Lex(NumberField(field, value) + rest) == (Number(field, value), rest)
    ensures StartsField(NumberField(field, value) + rest)
  {
    assert NumberField(field, value) + rest == Key(field, 0) + (Varint(value) + rest);
    LexKey(field, 0, Varint(value) + rest);
    VarintRoundTrip(value, rest);
  }

  lemma LexChunk(field: nat, payload: seq<byte>, rest: seq<byte>)
    ensures ChunkField(field, payload) + rest != []
    ensures Lex(ChunkField(field, payload) + rest) == (Chunk(field, payload), rest)
    ensures StartsField(ChunkField(field, payload) + rest)
  {
    assert ChunkField(field, payload) + rest == Key(field, 2) + (Varint(|payload|) + (payload + rest));
    LexKey(field, 2, Varint(|payload|) + (payload + rest));
    VarintRoundTrip(|payload|, payload + rest);
  }

  lemma LexQuad(field: nat, quad: Quad, rest: seq<byte>)
    ensures QuadField(field, quad) + rest != []
    ensures Lex(QuadField(field, quad) + rest) == (Fixed32(field, quad), rest)
    ensures StartsField(QuadField(field, quad) + rest)
  {
    assert QuadField(field, quad) + rest == Key(field, 5) + (QuadBytes(quad) + rest);
    LexKey(field, 5, QuadBytes(quad) + rest);
  }

  lemma ReadNumber<M>(field: nat, value: nat, rest: seq<byte>, m: M, read: Reader<M>)
    requires read(Number(field, value), m).Go?
    ensures Decode(NumberField(field, value) + rest, m, read) == Decode(rest, read(Number(field, value), m).message, read)
  {
    LexNumber(field, value, rest);
  }

  lemma ReadChunk<M>(field: nat, payload: seq<byte>, rest: seq<byte>, m: M, read: Reader<M>)
    requires read(Chunk(field, payload), m).Go?
    ensures Decode(ChunkField(field, payload) + rest, m, read) == Decode(rest, read(Chunk(field, payload), m).message, read)
  {
    LexChunk(field, payload, rest);
  }

  lemma ReadQuad<M>(field: nat, quad: Quad, rest: seq<byte>, m: M, read: Reader<M>)
    requires read(Fixed32(field, quad), m).Go?
    ensures Decode(QuadField(field, quad) + rest, m, read) == Decode(rest, read(Fixed32(field, quad), m).message, read)
  {
    LexQuad(field, quad, rest);
  }

  // The fields of a buffer, in order.
  function Tokens(s: seq<byte>): seq<Token>
    decreases |s|
  {
    if s == [] then [] else [Lex(s).0] + Tokens(Lex(s).1)
  }

  lemma TokensOfField(field: nat, n: nat, payload: seq<byte>, q: Quad, rest: seq<byte>)
    ensures Tokens(NumberField(field, n) + rest) == [Number(field, n)] + Tokens(rest)
    ensures Tokens(ChunkField(field, payload) + rest) == [Chunk(field, payload)] + Tokens(rest)
    ensures Tokens(QuadField(field, q) + rest) == [Fixed32(field, q)] + Tokens(rest)
  {
    LexNumber(field, n, rest);
    LexChunk(field, payload, rest);
    LexQuad(field, q, rest);
  }

  // A string field is written unless it is empty.
  lemma TokensOfString(field: nat, t: Text, rest: seq<byte>)
    ensures Tokens(StringField(field, t) + rest) == (if t == [] then [] else [Chunk(field, Utf8.Encode(t))]) + Tokens(rest)
  {
    if t == [] {
      assert StringField(field, t) + rest == rest;
      assert [] + Tokens(rest) == Tokens(rest);
    } else {
      LexChunk(field, Utf8.Encode(t), rest);
    }
  }

  // Fields that the input cuts short: a chunk is what is left,
  lemma LexShortChunk(field: nat, n: nat, s: seq<byte>)
    ensures Key(field, 2) + Varint(n) + s != [] && Lex(Key(field, 2) + Varint(n) + s) ==
            if n <= |s| then (Chunk(field, s[..n]), s[n..]) else (Chunk(field, s), [])
  {
    LexKey(field, 2, Varint(n) + s);
    VarintRoundTrip(n, s);
    Regroup3(Key(field, 2), Varint(n), s);
  }

  lemma Regroup3(a: seq<byte>, b: seq<byte>, c: seq<byte>)
    ensures a + b + c == a + (b + c)
  {
  }

  // ... eight bytes may be fewer, but four may not.
  lemma LexShortFixed(field: nat, s: seq<byte>)
    ensures Key(field, 1) + s != [] && Lex(Key(field, 1) + s) == (Fixed64(field), if |s| >= 8 then s[8..] else [])
    ensures Key(field, 5) + s != [] && (|s| < 4 ==> Lex(Key(field, 5) + s) == (Short32(field), s))
  {
    LexKey(field, 1, s);
    LexKey(field, 5, s);
  }

  // Any other wire type is foreign.
  lemma LexForeign(field: nat, wire: nat, s: seq<byte>)
    requires wire == 3 || wire == 4 || wire == 6 || wire == 7
    ensures Key(field, wire) + s != [] && Lex(Key(field, wire) + s) == (Foreign(wire), s)
  {
    LexKey(field, wire, s);
  }

  // The examples of the Encoding guide: 150 as field 1, "testing" as field 2, and the number 300.
  lemma GuideExamples(q: Quad)
    ensures NumberField(1, 150) == [0x08, 0x96, 0x01]
    ensures ChunkField(2, [0x74, 0x65, 0x73, 0x74, 0x69, 0x6e, 0x67]) == [0x12, 0x07, 0x74, 0x65, 0x73, 0x74, 0x69, 0x6e, 0x67]
    ensures Varint(300) == [0xAC, 0x02]
    ensures QuadField(2, q) == [0x15, q.b0, q.b1, q.b2, q.b3]
  {
    assert Varint(1) == [1] && Varint(2) == [2] && Varint(7) == [7];
    assert Varint(8) == [8] && Varint(18) == [18] && Varint(21) == [21];
    assert Varint(150) == [128 + 150 % 128] + Varint(150 / 128);
    assert Varint(300) == [128 + 300 % 128] + Varint(300 / 128);
  }

  lemma LexAppend(s: seq<byte>, t: seq<byte>)
    requires StartsField(s)
    ensures s + t != [] && Lex(s + t) == (Lex(s).0, Lex(s).1 + t)
  {
    var (key, s1) := TakeVarint(s);
    StartsVarintAppend(s, t);
    if key % 8 == 0 {
      StartsVarintAppend(s1, t);
    } else if key % 8 == 2 {
      StartsVarintAppend(s1, t);
      var (length, s2) := TakeVarint(s1);
      assert (s2 + t)[..length] == s2[..length] && (s2 + t)[length..] == s2[length..] + t;
    } else if key % 8 == 1 {
      assert (s1 + t)[8..] == s1[8..] + t;
    } else {
      assert (s1 + t)[4..] == s1[4..] + t;
    }
  }

  // ---- Main results, for any message type ----

  // Decoding a followed by anything: unless a makes the decoder stop or raise, what follows
  // is decoded starting from a's result.
  lemma {:induction false} DecodeAppend<M>(a: seq<byte>, b: seq<byte>, m: M, read: Reader<M>)
    requires WellFormed(a)
    ensures Decode(a + b, m, read) ==
            match Decode(a, m, read)
            case None => None
            case Some(m') => if Stops(a, m, read) then Some(m') else Decode(b, m', read)
    decreases |a|
  {
    if a == [] {
      assert a + b == b;
    } else {
      LexAppend(a, b);
      var (token, rest) := Lex(a);
      match read(token, m)
      case Go(m') => DecodeAppend(rest, b, m', read);
      case Stop =>
      case Raise =>
    }
  }

  lemma {:induction false} WellFormedAppend(a: seq<byte>, b: seq<byte>)
    requires WellFormed(a) && WellFormed(b)
    ensures WellFormed(a + b)
    decreases |a|
  {
    if a == [] {
      assert a + b == b;
    } else {
      LexAppend(a, b);
      StartsFieldAppend(a, b);
      WellFormedAppend(Lex(a).1, b);
    }
  }

  lemma StartsFieldAppend(s: seq<byte>, t: seq<byte>)
    requires StartsField(s)
    ensures StartsField(s + t)
  {
    var (key, s1) := TakeVarint(s);
    StartsVarintAppend(s, t);
    if key % 8 == 0 {
      StartsVarintAppend(s1, t);
    } else if key % 8 == 2 {
      StartsVarintAppend(s1, t);
    }
  }

  // Decoding keeps whatever every field keeps.
  lemma {:induction false} DecodeKeeps<M>(s: seq<byte>, m: M, read: Reader<M>, inv: M -> bool)
    requires inv(m) && forall t, m' :: inv(m') && read(t, m').Go? ==> inv(read(t, m').message)
    ensures Decode(s, m, read).Some? ==> inv(Decode(s, m, read).value)
    decreases |s|
  {
    if s != [] {
      var (token, rest) := Lex(s);
      match read(token, m)
      case Go(m') => DecodeKeeps(rest, m', read, inv);
      case _ =>
    }
  }

  // A whole field that the decoder passes over, in any message it can meet, may be inserted at
  // any field boundary.
  lemma InsertIgnored<M>(a: seq<byte>, u: seq<byte>, b: seq<byte>, m: M, read: Reader<M>, inv: M -> bool)
    requires WellFormed(a) && StartsField(u) && Lex(u).1 == []
    requires inv(m) && forall t, m' :: inv(m') && read(t, m').Go? ==> inv(read(t, m').message)
    requires forall m' :: inv(m') ==> read(Lex(u).0, m') == Go(m')
    ensures Decode(a + (u + b), m, read) == Decode(a + b, m, read)
  {
    DecodeAppend(a, u + b, m, read);
    DecodeAppend(a, b, m, read);
    DecodeKeeps(a, m, read, inv);
    match Decode(a, m, read)
    case None =>
    case Some(m') => SkipIgnored(u, b, m', read);
  }

  // Inserting u at a field boundary never changes what is decoded from a message of the kind inv.
  ghost predicate Insertable<M(!new)>(u: seq<byte>, read: Reader<M>, inv: M -> bool) {
    forall a: seq<byte>, b: seq<byte>, m: M :: WellFormed(a) && inv(m) ==> Decode(a + (u + b), m, read) == Decode(a + b, m, read)
  }

  lemma InsertableHere<M(!new)>(u: seq<byte>, b: seq<byte>, m: M, read: Reader<M>, inv: M -> bool)
    requires Insertable(u, read, inv) && inv(m)
    ensures Decode(u + b, m, read) == Decode(b, m, read)
  {
    var a: seq<byte> := [];
    var with, without := a + (u + b), a + b;
    assert with == u + b && without == b && WellFormed(a);
    var changed := Decode(with, m, read) != Decode(without, m, read);
    assert !changed;
  }

  ghost predicate SameResult<M>(s: seq<byte>, t: seq<byte>, m: M, read: Reader<M>) {
    Decode(s, m, read) == Decode(t, m, read)
  }

  // A reader of other messages under which the same inputs have the same results.
  lemma InsertableTransfer<M(!new), N(!new)>(u: seq<byte>, r1: Reader<M>, i1: M -> bool, r2: Reader<N>, i2: N -> bool,
                                             image: M -> N, origin: N -> M)
    requires forall m :: i1(m) ==> i2(image(m))
    requires forall n :: i2(n) ==> i1(origin(n)) && image(origin(n)) == n
    requires forall s: seq<byte>, t: seq<byte>, m :: i1(m) ==> (SameResult(s, t, m, r1) <==> SameResult(s, t, image(m), r2))
    ensures Insertable(u, r1, i1) <==> Insertable(u, r2, i2)
  {
    if Insertable(u, r1, i1) {
      forall a: seq<byte>, b: seq<byte>, n | WellFormed(a) && i2(n)
        ensures Decode(a + (u + b), n, r2) == Decode(a + b, n, r2)
      {
        var m := origin(n);
        assert Decode(a + (u + b), m, r1) == Decode(a + b, m, r1);
        assert SameResult(a + (u + b), a + b, m, r1);
        assert SameResult(a + (u + b), a + b, image(m), r2);
      }
    }
    if Insertable(u, r2, i2) {
      forall a: seq<byte>, b: seq<byte>, m | WellFormed(a) && i1(m)
        ensures Decode(a + (u + b), m, r1) == Decode(a + b, m, r1)
      {
        assert Decode(a + (u + b), image(m), r2) == Decode(a + b, image(m), r2);
        assert SameResult(a + (u + b), a + b, image(m), r2);
        assert SameResult(a + (u + b), a + b, m, r1);
      }
    }
  }

  lemma PassedOverIsInsertable<M(!new)>(u: seq<byte>, read: Reader<M>, inv: M -> bool)
    requires StartsField(u) && Lex(u).1 == []
    requires forall t, m' :: inv(m') && read(t, m').Go? ==> inv(read(t, m').message)
    requires forall m' :: inv(m') ==> read(Lex(u).0, m') == Go(m')
    ensures Insertable(u, read, inv)
  {
    forall a: seq<byte>, b: seq<byte>, m: M | WellFormed(a) && inv(m)
      ensures Decode(a + (u + b), m, read) == Decode(a + b, m, read)
    {
      InsertIgnored(a, u, b, m, read, inv);
    }
  }

  lemma SkipIgnored<M>(u: seq<byte>, b: seq<byte>, m: M, read: Reader<M>)
    requires StartsField(u) && Lex(u).1 == [] && read(Lex(u).0, m) == Go(m)
    ensures Decode(u + b, m, read) == Decode(b, m, read)
  {
    LexAppend(u, b);
    assert Lex(u).1 + b == b;
  }

  // ---- Reading at a position, as the decoders do ----

  // A key at `start`, ending at `pos`.
  ghost predicate KeyAt(data: seq<byte>, start: nat, field: nat, wire: nat, pos: nat) {
    start < pos <= |data| && wire < 8 && TakeVarint(data[start..]) == (field * 8 + wire, data[pos..])
  }

  method DecodeKey(data: seq<byte>, start: nat) returns (field: nat, wire: nat, pos: nat)
    requires start < |data|
    ensures KeyAt(data, start, field, wire, pos)
  {
    var key;
    key, pos := DecodeVarint(data, start);
    field, wire := key / 8, key % 8;
  }

  // What the rest of the field after its key makes of it.
  lemma FieldAt(data: seq<byte>, start: nat, field: nat, wire: nat, p: nat)
    requires KeyAt(data, start, field, wire, p)
    ensures Drop(data, start) != [] && data[p..] == Drop(data, p)
    ensures var s := Drop(data, start);
      (match wire
      case 0 => var (value, rest) := TakeVarint(data[p..]); Lex(s) == (Number(field, value), rest)
      case 1 => Lex(s) == (Fixed64(field), Drop(data, p + 8))
      case 2 => var (length, rest) := TakeVarint(data[p..]); Lex(s) == (Chunk(field, Take(rest, length)), Drop(rest, length))
      case 5 => Lex(s) == if |data| - p < 4 then (Short32(field), Drop(data, p))
                          else (Fixed32(field, Quad(data[p], data[p + 1], data[p + 2], data[p + 3])), Drop(data, p + 4))
      case _ => Lex(s) == (Foreign(wire), Drop(data, p)))
  {
    assert (field * 8 + wire) / 8 == field && (field * 8 + wire) % 8 == wire;
    assert Drop(data, start) == data[start..];
    if wire == 1 {
      assert Drop(data[p..], 8) == Drop(data, p + 8);
    } else if wire == 5 && |data| - p >= 4 {
      assert data[p..][4..] == Drop(data, p + 4);
    }
  }

  lemma QuadAt(data: seq<byte>, start: nat, field: nat, p: nat)
    requires KeyAt(data, start, field, 5, p)
    ensures Drop(data, start) != []
    ensures |data| - p < 4 ==> Lex(Drop(data, start)) == (Short32(field), Drop(data, p))
    ensures |data| - p >= 4 ==>
              Lex(Drop(data, start)) == (Fixed32(field, Quad(data[p], data[p + 1], data[p + 2], data[p + 3])), Drop(data, p + 4))
  {
    FieldAt(data, start, field, 5, p);
  }

  // How a turn of a decoding loop ends: with a message and a position, by leaving the loop, or
  // by raising.
  datatype Turn<M> = Next(message: M, pos: nat) | Leave | Fail

  ghost predicate TurnAt<M>(turn: Turn<M>, data: seq<byte>, start: nat, m: M, read: Reader<M>) {
    Decode(Drop(data, start), m, read) ==
    match turn
    case Next(m', next) => Decode(Drop(data, next), m', read)
    case Leave => Some(m)
    case Fail => None
  }

  function TurnFor<M>(verdict: Verdict<M>, next: nat): Turn<M> {
    match verdict
    case Go(m) => Next(m, next)
    case Stop => Leave
    case Raise => Fail
  }

  // One turn of a decoding loop.
  lemma StepAt<M>(data: seq<byte>, start: nat, m: M, read: Reader<M>, token: Token, next: nat)
    requires Drop(data, start) != [] && Lex(Drop(data, start)) == (token, Drop(data, next))
    ensures TurnAt(TurnFor(read(token, m), next), data, start, m, read)
  {
  }

  lemma LeaveAt<M>(data: seq<byte>, start: nat, m: M, read: Reader<M>)
    requires Drop(data, start) != [] && read(Lex(Drop(data, start)).0, m) == Stop
    ensures TurnAt(Leave, data, start, m, read)
  {
  }

  // A length, the slice of that length, clamped at the end of the input, and the position
  // after it, which may lie past the end.
  method DecodeSlice(data: seq<byte>, start: nat) returns (value: seq<byte>, pos: nat)
    requires start <= |data|
    ensures pos >= start
    ensures var (length, rest) := TakeVarint(data[start..]); value == Take(rest, length) && Drop(data, pos) == Drop(rest, length)
  {
    var length;
    length, pos := DecodeVarint(data, start);
    value := data[pos..if pos + length <= |data| then pos + length else |data|];
    pos := pos + length;
  }

  // Four bytes as they stand, or None when the input is too short to unpack a float.
  method DecodeQuad(data: seq<byte>, pos: nat) returns (quad: Option<Quad>)
    requires pos <= |data|
    ensures quad == if |data| - pos < 4 then None else Some(Quad(data[pos], data[pos + 1], data[pos + 2], data[pos + 3]))
  {
    if |data| - pos < 4 {
      return None;
    }
    quad := Some(Quad(data[pos], data[pos + 1], data[pos + 2], data[pos + 3]));
  }
}
