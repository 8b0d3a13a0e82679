// backend/proto_codec.py: the SensorData message, including its map field.
module SensorCodec {
  import opened Prelude
  import opened Base128
  import opened Utf8
  import opened Wire

  // Packing a float to four bytes, unpacking it, and round(x, 2): any functions at all.
  datatype FloatOps<!F> = FloatOps(pack: F -> Quad, unpack: Quad -> F, round2: F -> F, zero: F) {
    function Read(q: Quad): F { round2(unpack(q)) }
    // What becomes of a float that is encoded and decoded again.
    function Trip(v: F): F { Read(pack(v)) }
  }

  // The arguments of the encoder; `extra` is a dict in insertion order.
  datatype Reading<F> = Reading(deviceId: Text, temperature: F, humidity: F, pressure: F, timestamp: nat, extra: seq<(Text, F)>)

  // The dict the decoder returns.
  datatype Sensor<F> = Sensor(deviceId: Text, temperature: F, humidity: F, pressure: F, timestamp: nat, extra: map<Text, F>)

  datatype Entry<F> = Entry(key: Text, value: F)

  function Blank<F>(ops: FloatOps<F>): Sensor<F> {
    Sensor([], ops.zero, ops.zero, ops.zero, 0, map[])
  }

  // ---- What each field does ----

  function EntryField<F>(ops: FloatOps<F>, t: Token, e: Entry<F>): Verdict<Entry<F>> {
    match t
    case Chunk(1, payload) =>
      (match Utf8.Decode(payload)
       case None => Raise
       case Some(key) => Go(e.(key := key)))
    case Fixed32(2, quad) => Go(e.(value := ops.Read(quad)))
    case Short32(2) => Raise
    case _ => Stop
  }

  function EntryReader<F>(ops: FloatOps<F>): Reader<Entry<F>> {
    (t, e) => EntryField(ops, t, e)
  }

  function SensorField<F>(ops: FloatOps<F>, t: Token, m: Sensor<F>): Verdict<Sensor<F>> {
    match t
    case Number(field, value) => Go(if field == 5 then m.(timestamp := value) else m)
    case Chunk(field, payload) =>
      if field == 1 then
        match Utf8.Decode(payload)
        case None => Raise
        case Some(id) => Go(m.(deviceId := id))
      else if field == 6 then
        match Wire.Decode(payload, Entry([], ops.zero), EntryReader(ops))
        case None => Raise
        case Some(e) => Go(if e.key != [] then m.(extra := m.extra[e.key := e.value]) else m)
      else Go(m)
    case Fixed32(field, quad) =>
      if field == 2 then Go(m.(temperature := ops.Read(quad)))
      else if field == 3 then Go(m.(humidity := ops.Read(quad)))
      else if field == 4 then Go(m.(pressure := ops.Read(quad)))
      else Go(m)
    case Short32(_) => Raise
    case Fixed64(_) => Go(m)
    case Foreign(_) => Stop
  }

  function SensorReader<F>(ops: FloatOps<F>): Reader<Sensor<F>> {
    (t, m) => SensorField(ops, t, m)
  }

  // ---- Decoding loops ----

  method DecodeMapEntry<F>(ops: FloatOps<F>, data: seq<byte>) returns (r: Option<Entry<F>>)
    ensures r == Wire.Decode(data, Entry([], ops.zero), EntryReader(ops))
  {
    var e := Entry([], ops.zero);
    ghost var read := EntryReader(ops);
    ghost var whole := Wire.Decode(data, e, read);
    var pos: nat := 0;
    assert data == Drop(data, 0);
    while pos < |data|
      invariant Wire.Decode(Drop(data, pos), e, read) == whole
      decreases |data| - pos
    {
      var turn := ReadEntryField(ops, data, pos, e);
      if turn.Fail? {
        return None;
      }
      if turn.Leave? {
        break;
      }
      e, pos := turn.message, turn.pos;
    }
    r := Some(e);
  }

  // The body of the loop: its two branches, and any other field ends the entry.
  method ReadEntryField<F>(ops: FloatOps<F>, data: seq<byte>, pos: nat, e: Entry<F>) returns (turn: Turn<Entry<F>>)
    requires pos < |data|
    ensures TurnAt(turn, data, pos, e, EntryReader(ops)) && (turn.Next? ==> turn.pos > pos)
  {
    var field, wire, p := DecodeKey(data, pos);
    if wire == 2 && field == 1 {
      turn := TakeKey(ops, data, pos, p, e);
    } else if wire == 5 && field == 2 {
      turn := TakeValue(ops, data, pos, p, e);
    } else {
      EntryEnds(ops, data, pos, field, wire, p, e);
      turn := Leave;
    }
  }

  method TakeKey<F>(ops: FloatOps<F>, data: seq<byte>, ghost start: nat, p: nat, e: Entry<F>) returns (turn: Turn<Entry<F>>)
    requires KeyAt(data, start, 1, 2, p)
    ensures TurnAt(turn, data, start, e, EntryReader(ops)) && (turn.Next? ==> turn.pos > start)
  {
    FieldAt(data, start, 1, 2, p);
    var value, q := DecodeSlice(data, p);
    StepAt(data, start, e, EntryReader(ops), Chunk(1, value), q);
    var key := Utf8.Decode(value);
    turn := if key.None? then Fail else Next(e.(key := key.value), q);
  }

  method TakeValue<F>(ops: FloatOps<F>, data: seq<byte>, ghost start: nat, p: nat, e: Entry<F>) returns (turn: Turn<Entry<F>>)
    requires KeyAt(data, start, 2, 5, p)
    ensures TurnAt(turn, data, start, e, EntryReader(ops)) && (turn.Next? ==> turn.pos > start)
  {
    QuadAt(data, start, 2, p);
    var quad := DecodeQuad(data, p);
    if quad.None? {
      StepAt(data, start, e, EntryReader(ops), Short32(2), p);
      return Fail;
    }
    StepAt(data, start, e, EntryReader(ops), Fixed32(2, quad.value), p + 4);
    turn := Next(e.(value := ops.Read(quad.value)), p + 4);
  }

  lemma EntryEnds<F>(ops: FloatOps<F>, data: seq<byte>, start: nat, field: nat, wire: nat, p: nat, e: Entry<F>)
    requires KeyAt(data, start, field, wire, p) && !(wire == 2 && field == 1) && !(wire == 5 && field == 2)
    ensures TurnAt(Leave, data, start, e, EntryReader(ops))
  {
    FieldAt(data, start, field, wire, p);
    LeaveAt(data, start, e, EntryReader(ops));
  }

  // What a length-delimited field does to the reading.
  method StoreChunk<F>(ops: FloatOps<F>, field: nat, value: seq<byte>, before: Sensor<F>) returns (r: Option<Sensor<F>>)
    ensures SensorField(ops, Chunk(field, value), before) == if r.Some? then Go(r.value) else Raise
  {
    var m := before;
    if field == 1 {
      var id := Utf8.Decode(value);
      if id.None? {
        return None;
      }
      m := m.(deviceId := id.value);
    } else if field == 6 {
      var entry := DecodeMapEntry(ops, value);
      if entry.None? {
        return None;
      }
      if entry.value.key != [] {
        m := m.(extra := m.extra[entry.value.key := entry.value.value]);
      }
    }
    r := Some(m);
  }

  // What a 32-bit field does to it.
  method StoreFloat<F>(ops: FloatOps<F>, field: nat, quad: Quad, before: Sensor<F>) returns (m: Sensor<F>)
    ensures SensorField(ops, Fixed32(field, quad), before) == Go(m)
  {
    m := before;
    var value := ops.unpack(quad);
    if field == 2 {
      m := m.(temperature := ops.round2(value));
    } else if field == 3 {
      m := m.(humidity := ops.round2(value));
    } else if field == 4 {
      m := m.(pressure := ops.round2(value));
    }
  }

  // The branches of the loop, by wire type.
  method TakeNumber<F>(ops: FloatOps<F>, data: seq<byte>, ghost start: nat, field: nat, p: nat, m: Sensor<F>)
    returns (turn: Turn<Sensor<F>>)
    requires KeyAt(data, start, field, 0, p)
    ensures TurnAt(turn, data, start, m, SensorReader(ops)) && (turn.Next? ==> turn.pos > start)
  {
    FieldAt(data, start, field, 0, p);
    var value, q := DecodeVarint(data, p);
    assert data[q..] == Drop(data, q);
    StepAt(data, start, m, SensorReader(ops), Number(field, value), q);
    turn := Next(if field == 5 then m.(timestamp := value) else m, q);
  }

  method TakeChunk<F>(ops: FloatOps<F>, data: seq<byte>, ghost start: nat, field: nat, p: nat, m: Sensor<F>)
    returns (turn: Turn<Sensor<F>>)
    requires KeyAt(data, start, field, 2, p)
    ensures TurnAt(turn, data, start, m, SensorReader(ops)) && (turn.Next? ==> turn.pos > start)
  {
    FieldAt(data, start, field, 2, p);
    var value, q := DecodeSlice(data, p);
    StepAt(data, start, m, SensorReader(ops), Chunk(field, value), q);
    var stored := StoreChunk(ops, field, value, m);
    turn := if stored.None? then Fail else Next(stored.value, q);
  }

  method TakeFloat<F>(ops: FloatOps<F>, data: seq<byte>, ghost start: nat, field: nat, p: nat, m: Sensor<F>)
    returns (turn: Turn<Sensor<F>>)
    requires KeyAt(data, start, field, 5, p)
    ensures TurnAt(turn, data, start, m, SensorReader(ops)) && (turn.Next? ==> turn.pos > start)
  {
    QuadAt(data, start, field, p);
    var quad := DecodeQuad(data, p);
    if quad.None? {
      StepAt(data, start, m, SensorReader(ops), Short32(field), p);
      return Fail;
    }
    StepAt(data, start, m, SensorReader(ops), Fixed32(field, quad.value), p + 4);
    var stored := StoreFloat(ops, field, quad.value, m);
    turn := Next(stored, p + 4);
  }

  // A 64-bit field is skipped; a key of any other wire type ends the message.
  lemma SkipOrLeave<F>(ops: FloatOps<F>, data: seq<byte>, start: nat, field: nat, wire: nat, p: nat, m: Sensor<F>)
    requires KeyAt(data, start, field, wire, p) && wire != 0 && wire != 2 && wire != 5
    ensures TurnAt(if wire == 1 then Next(m, p + 8) else Leave, data, start, m, SensorReader(ops))
  {
    FieldAt(data, start, field, wire, p);
    if wire == 1 {
      StepAt(data, start, m, SensorReader(ops), Fixed64(field), p + 8);
    } else {
      LeaveAt(data, start, m, SensorReader(ops));
    }
  }

  // The body of the loop.
  method ReadSensorField<F>(ops: FloatOps<F>, data: seq<byte>, pos: nat, m: Sensor<F>) returns (turn: Turn<Sensor<F>>)
    requires pos < |data|
    ensures TurnAt(turn, data, pos, m, SensorReader(ops)) && (turn.Next? ==> turn.pos > pos)
  {
    var field, wire, p := DecodeKey(data, pos);
    if wire == 0 {
      turn := TakeNumber(ops, data, pos, field, p, m);
    } else if wire == 2 {
      turn := TakeChunk(ops, data, pos, field, p, m);
    } else if wire == 5 {
      turn := TakeFloat(ops, data, pos, field, p, m);
    } else {
      SkipOrLeave(ops, data, pos, field, wire, p, m);
      turn := if wire == 1 then Next(m, p + 8) else Leave;
    }
  }

  method DecodeSensorData<F>(ops: FloatOps<F>, data: seq<byte>) returns (r: Option<Sensor<F>>)
    ensures r == Wire.Decode(data, Blank(ops), SensorReader(ops))
  {
    var m := Blank(ops);
    ghost var read := SensorReader(ops);
    ghost var whole := Wire.Decode(data, m, read);
    var pos: nat := 0;
    assert data == Drop(data, 0);
    while pos < |data|
      invariant Wire.Decode(Drop(data, pos), m, read) == whole
      decreases |data| - pos
    {
      var turn := ReadSensorField(ops, data, pos, m);
      if turn.Fail? {
        return None;
      }
      if turn.Leave? {
        break;
      }
      m, pos := turn.message, turn.pos;
    }
    r := Some(m);
  }

  // ---- Encoding ----

  function EntryBytes<F>(ops: FloatOps<F>, e: (Text, F)): seq<byte> {
    ChunkField(1, Utf8.Encode(e.0)) + QuadField(2, ops.pack(e.1))
  }

  function ExtraBytes<F>(ops: FloatOps<F>, extra: seq<(Text, F)>): seq<byte> {
    if extra == [] then [] else ChunkField(6, EntryBytes(ops, extra[0])) + ExtraBytes(ops, extra[1..])
  }

  function SensorBytes<F>(ops: FloatOps<F>, r: Reading<F>): seq<byte> {
    StringField(1, r.deviceId)
    + (QuadField(2, ops.pack(r.temperature))
    + (QuadField(3, ops.pack(r.humidity))
    + (QuadField(4, ops.pack(r.pressure))
    + (NumberField(5, r.timestamp)
    + ExtraBytes(ops, r.extra)))))
  }

  method EncodeFloat<F>(ops: FloatOps<F>, field: nat, value: F) returns (s: seq<byte>)
    ensures s == QuadField(field, ops.pack(value))
  {
    var key := EncodeVarint(field * 8 + 5);
    s := key + QuadBytes(ops.pack(value));
  }

  method EncodeEntry<F>(ops: FloatOps<F>, e: (Text, F)) returns (s: seq<byte>)
    ensures s == ChunkField(6, EntryBytes(ops, e))
  {
    var k := EncodeChunk(1, Utf8.Encode(e.0));
    var v := EncodeFloat(ops, 2, e.1);
    s := EncodeChunk(6, k + v);
  }

  method EncodeEntries<F>(ops: FloatOps<F>, head: seq<byte>, extra: seq<(Text, F)>) returns (buf: seq<byte>)
    ensures buf == head + ExtraBytes(ops, extra)
  {
    buf := head;
    for i := 0 to |extra|
      invariant head + ExtraBytes(ops, extra) == buf + ExtraBytes(ops, extra[i..])
    {
      assert extra[i..][1..] == extra[i + 1..];
      var entry := EncodeEntry(ops, extra[i]);
      buf := buf + entry;
    }
  }

  // A zero timestamp stands for the current time.
  method EncodeSensorData<F>(ops: FloatOps<F>, r: Reading<F>, now: nat) returns (buf: seq<byte>)
    ensures buf == SensorBytes(ops, if r.timestamp == 0 then r.(timestamp := now) else r)
  {
    var timestamp := if r.timestamp == 0 then now else r.timestamp;
    buf := [];
    if r.deviceId != [] {
      buf := EncodeChunk(1, Utf8.Encode(r.deviceId));
    }
    var t := EncodeFloat(ops, 2, r.temperature);
    var h := EncodeFloat(ops, 3, r.humidity);
    var p := EncodeFloat(ops, 4, r.pressure);
    var ts := EncodeNumber(5, timestamp);
    Regroup(buf, t, h, p, ts, ExtraBytes(ops, r.extra));
    buf := EncodeEntries(ops, buf + t + h + p + ts, r.extra);
  }

  // ---- Main results ----

  function AddEntry<F>(ops: FloatOps<F>, m: map<Text, F>, e: (Text, F)): map<Text, F> {
    if e.0 == [] then m else m[e.0 := ops.Trip(e.1)]
  }

  // Storing entries into a map: later ones win, an empty key is dropped.
  function AddEntries<F>(ops: FloatOps<F>, m: map<Text, F>, extra: seq<(Text, F)>): map<Text, F>
    decreases |extra|
  {
    if extra == [] then m else AddEntries(ops, AddEntry(ops, m, extra[0]), extra[1..])
  }

  function EntryMap<F>(ops: FloatOps<F>, extra: seq<(Text, F)>): map<Text, F> {
    AddEntries(ops, map[], extra)
  }

  lemma {:induction false} EntriesMerge<F>(ops: FloatOps<F>, m: map<Text, F>, extra: seq<(Text, F)>)
    ensures AddEntries(ops, m, extra) == m + EntryMap(ops, extra)
    decreases |extra|
  {
    if extra != [] {
      var one := AddEntry(ops, map[], extra[0]);
      EntriesMerge(ops, AddEntry(ops, m, extra[0]), extra[1..]);
      EntriesMerge(ops, one, extra[1..]);
      assert AddEntry(ops, m, extra[0]) == m + one;
    }
  }

  // Decoding an encoded reading on top of an earlier result: the reading's values win,
  // map entries merge, and an empty device id leaves the earlier one.
  function MergeReading<F>(ops: FloatOps<F>, m: Sensor<F>, r: Reading<F>): Sensor<F> {
    Sensor(if r.deviceId == [] then m.deviceId else r.deviceId,
           ops.Trip(r.temperature), ops.Trip(r.humidity), ops.Trip(r.pressure),
           r.timestamp, m.extra + EntryMap(ops, r.extra))
  }

  lemma EntryRoundTrip<F>(ops: FloatOps<F>, e: (Text, F))
    ensures Wire.Decode(EntryBytes(ops, e), Entry([], ops.zero), EntryReader(ops)) == Some(Entry(e.0, ops.Trip(e.1)))
  {
    var read := EntryReader(ops);
    var start := Entry([], ops.zero);
    var k, v := Utf8.Encode(e.0), QuadField(2, ops.pack(e.1));
    TextRoundTrip(e.0);
    ReadChunk(1, k, v, start, read);
    ReadQuad(2, ops.pack(e.1), [], start.(key := e.0), read);
    assert v + [] == v;
  }

  lemma DecodeEntry<F>(ops: FloatOps<F>, e: (Text, F), rest: seq<byte>, m: Sensor<F>)
    ensures Wire.Decode(ChunkField(6, EntryBytes(ops, e)) + rest, m, SensorReader(ops)) ==
            Wire.Decode(rest, m.(extra := AddEntry(ops, m.extra, e)), SensorReader(ops))
  {
    EntryRoundTrip(ops, e);
    var payload := EntryBytes(ops, e);
    assert SensorField(ops, Chunk(6, payload), m) == Go(m.(extra := AddEntry(ops, m.extra, e)));
    ReadChunk(6, payload, rest, m, SensorReader(ops));
  }

  lemma {:induction false} DecodeExtra<F>(ops: FloatOps<F>, extra: seq<(Text, F)>, m: Sensor<F>)
    ensures Wire.Decode(ExtraBytes(ops, extra), m, SensorReader(ops)) == Some(m.(extra := AddEntries(ops, m.extra, extra)))
    decreases |extra|
  {
    if extra != [] {
      DecodeEntry(ops, extra[0], ExtraBytes(ops, extra[1..]), m);
      DecodeExtra(ops, extra[1..], m.(extra := AddEntry(ops, m.extra, extra[0])));
    }
  }

  // Decoding inverts encoding up to the trip of each float, on top of any earlier result.
  lemma DecodeSensorBytes<F>(ops: FloatOps<F>, r: Reading<F>, m: Sensor<F>)
    ensures Wire.Decode(SensorBytes(ops, r), m, SensorReader(ops)) == Some(MergeReading(ops, m, r))
  {
    var read := SensorReader(ops);
    var s6 := ExtraBytes(ops, r.extra);
    var s5 := NumberField(5, r.timestamp) + s6;
    var s4 := QuadField(4, ops.pack(r.pressure)) + s5;
    var s3 := QuadField(3, ops.pack(r.humidity)) + s4;
    var s2 := QuadField(2, ops.pack(r.temperature)) + s3;
    var m1 := if r.deviceId == [] then m else m.(deviceId := r.deviceId);
    assert Wire.Decode(SensorBytes(ops, r), m, read) == Wire.Decode(s2, m1, read) by {
      TextRoundTrip(r.deviceId);
      if r.deviceId == [] {
        assert [] + s2 == s2;
      } else {
        ReadChunk(1, Utf8.Encode(r.deviceId), s2, m, read);
      }
    }
    var m2 := m1.(temperature := ops.Trip(r.temperature));
    ReadQuad(2, ops.pack(r.temperature), s3, m1, read);
    var m3 := m2.(humidity := ops.Trip(r.humidity));
    ReadQuad(3, ops.pack(r.humidity), s4, m2, read);
    var m4 := m3.(pressure := ops.Trip(r.pressure));
    ReadQuad(4, ops.pack(r.pressure), s5, m3, read);
    var m5 := m4.(timestamp := r.timestamp);
    ReadNumber(5, r.timestamp, s6, m4, read);
    DecodeExtra(ops, r.extra, m5);
    EntriesMerge(ops, m.extra, r.extra);
  }

  lemma SensorRoundTrip<F>(ops: FloatOps<F>, r: Reading<F>)
    ensures Wire.Decode(SensorBytes(ops, r), Blank(ops), SensorReader(ops)) ==
            Some(Sensor(r.deviceId,
                        ops.round2(ops.unpack(ops.pack(r.temperature))),
                        ops.round2(ops.unpack(ops.pack(r.humidity))),
                        ops.round2(ops.unpack(ops.pack(r.pressure))),
                        r.timestamp, EntryMap(ops, r.extra)))
  {
    DecodeSensorBytes(ops, r, Blank(ops));
    MergeBlank(ops, r);
  }

  lemma MergeBlank<F>(ops: FloatOps<F>, r: Reading<F>)
    ensures MergeReading(ops, Blank(ops), r) ==
            Sensor(r.deviceId, ops.Trip(r.temperature), ops.Trip(r.humidity), ops.Trip(r.pressure),
                   r.timestamp, EntryMap(ops, r.extra))
  {
    assert map[] + EntryMap(ops, r.extra) == EntryMap(ops, r.extra);
  }

  // A dict has distinct keys: the decoded map has its non-empty keys, value by value.
  lemma {:induction false} EntryMapIsDict<F>(ops: FloatOps<F>, extra: seq<(Text, F)>, k: Text)
    requires forall i, j :: 0 <= i < j < |extra| ==> extra[i].0 != extra[j].0
    ensures k in EntryMap(ops, extra) <==> k != [] && exists i :: 0 <= i < |extra| && extra[i].0 == k
    ensures forall i :: 0 <= i < |extra| && extra[i].0 == k && k != [] ==>
              EntryMap(ops, extra)[k] == ops.round2(ops.unpack(ops.pack(extra[i].1)))
  {
    if extra != [] {
      var e, later := extra[0], extra[1..];
      EntryMapIsDict(ops, later, k);
      EntriesMerge(ops, AddEntry(ops, map[], e), later);
      if k in EntryMap(ops, later) {
        var i :| 0 <= i < |later| && later[i].0 == k;
        assert extra[i + 1].0 == k;
      }
      assert forall i :: 0 < i < |extra| ==> extra[i] == later[i - 1];
    }
  }

  // ---- What is written ----

  // The fields of an encoded reading, in order; the entries of the map come last, one by one.
  lemma SensorTokens<F>(ops: FloatOps<F>, r: Reading<F>)
    ensures Tokens(SensorBytes(ops, r)) ==
            (if r.deviceId == [] then [] else [Chunk(1, Utf8.Encode(r.deviceId))])
            + ([Fixed32(2, ops.pack(r.temperature))] + ([Fixed32(3, ops.pack(r.humidity))] + ([Fixed32(4, ops.pack(r.pressure))]
            + ([Number(5, r.timestamp)] + Tokens(ExtraBytes(ops, r.extra))))))
  {
    var s6 := ExtraBytes(ops, r.extra);
    var s5 := NumberField(5, r.timestamp) + s6;
    var s4 := QuadField(4, ops.pack(r.pressure)) + s5;
    var s3 := QuadField(3, ops.pack(r.humidity)) + s4;
    var s2 := QuadField(2, ops.pack(r.temperature)) + s3;
    TokensOfString(1, r.deviceId, s2);
    TokensOfField(2, 0, [], ops.pack(r.temperature), s3);
    TokensOfField(3, 0, [], ops.pack(r.humidity), s4);
    TokensOfField(4, 0, [], ops.pack(r.pressure), s5);
    TokensOfField(5, r.timestamp, [], ops.pack(r.pressure), s6);
  }

  lemma {:induction false} ExtraTokens<F>(ops: FloatOps<F>, extra: seq<(Text, F)>)
    ensures |Tokens(ExtraBytes(ops, extra))| == |extra|
    ensures forall i :: 0 <= i < |extra| ==> IsEntryToken(ops, Tokens(ExtraBytes(ops, extra))[i], extra[i])
  {
    if extra != [] {
      var e, rest := extra[0], ExtraBytes(ops, extra[1..]);
      TokensOfField(6, 0, EntryBytes(ops, e), ops.pack(e.1), rest);
      EntryTokens(ops, e);
      ExtraTokens(ops, extra[1..]);
    }
  }

  ghost predicate IsEntryToken<F>(ops: FloatOps<F>, t: Token, e: (Text, F)) {
    t.Chunk? && t.field == 6 && Tokens(t.payload) == [Chunk(1, Utf8.Encode(e.0)), Fixed32(2, ops.pack(e.1))]
  }

  lemma EntryTokens<F>(ops: FloatOps<F>, e: (Text, F))
    ensures Tokens(EntryBytes(ops, e)) == [Chunk(1, Utf8.Encode(e.0)), Fixed32(2, ops.pack(e.1))]
  {
    var q := ops.pack(e.1);
    TokensOfField(1, 0, Utf8.Encode(e.0), q, QuadField(2, q));
    TokensOfField(2, 0, [], q, []);
    assert QuadField(2, q) + [] == QuadField(2, q);
  }

  // ---- What single fields mean ----

  // A 32-bit field is unpacked, rounded and stored under its number; any other number is passed over.
  lemma QuadFieldMeans<F>(ops: FloatOps<F>, field: nat, q: Quad, m: Sensor<F>)
    ensures Wire.Decode(QuadField(field, q), m, SensorReader(ops)) ==
            Some(if field == 2 then m.(temperature := ops.round2(ops.unpack(q)))
                 else if field == 3 then m.(humidity := ops.round2(ops.unpack(q)))
                 else if field == 4 then m.(pressure := ops.round2(ops.unpack(q)))
                 else m)
  {
    ReadQuad(field, q, [], m, SensorReader(ops));
    assert QuadField(field, q) + [] == QuadField(field, q);
  }

  // Field 5 is the timestamp.
  lemma NumberFieldMeans<F>(ops: FloatOps<F>, field: nat, n: nat, m: Sensor<F>)
    ensures Wire.Decode(NumberField(field, n), m, SensorReader(ops)) == Some(if field == 5 then m.(timestamp := n) else m)
  {
    ReadNumber(field, n, [], m, SensorReader(ops));
    assert NumberField(field, n) + [] == NumberField(field, n);
  }

  // Field 1 is the device id, and bytes that are no UTF-8 raise.
  lemma DeviceIdMeans<F>(ops: FloatOps<F>, payload: seq<byte>, m: Sensor<F>)
    ensures Wire.Decode(ChunkField(1, payload), m, SensorReader(ops)) ==
            match Utf8.Decode(payload) case None => None case Some(id) => Some(m.(deviceId := id))
  {
    LexChunk(1, payload, []);
    assert ChunkField(1, payload) + [] == ChunkField(1, payload);
  }

  // Field 6 is a map entry: its field 1 is the key, its field 2 the rounded value, and later
  // ones win; an entry without a key is dropped, and one without a value stores zero.
  lemma EntryMeans<F>(ops: FloatOps<F>, key: Text, q: Quad, m: Sensor<F>)
    ensures var value := ops.round2(ops.unpack(q));
      && Wire.Decode(ChunkField(6, ChunkField(1, Utf8.Encode(key)) + QuadField(2, q)), m, SensorReader(ops)) ==
           Some(if key == [] then m else m.(extra := m.extra[key := value]))
      && Wire.Decode(ChunkField(6, QuadField(2, q) + ChunkField(1, Utf8.Encode(key))), m, SensorReader(ops)) ==
           Some(if key == [] then m else m.(extra := m.extra[key := value]))
      && Wire.Decode(ChunkField(6, ChunkField(1, Utf8.Encode(key))), m, SensorReader(ops)) ==
           Some(if key == [] then m else m.(extra := m.extra[key := ops.zero]))
  {
    var start, k, v := Entry([], ops.zero), ChunkField(1, Utf8.Encode(key)), QuadField(2, q);
    var value := ops.round2(ops.unpack(q));
    EntryReads(ops, key, q, v, start);
    EntryReads(ops, key, q, k, start);
    EntryReads(ops, key, q, [], start);
    EntryReads(ops, key, q, [], start.(key := key));
    EntryReads(ops, key, q, [], start.(value := value));
    EntryStored(ops, k + v, m);
    EntryStored(ops, v + k, m);
    EntryStored(ops, k, m);
  }

  lemma EntryReads<F>(ops: FloatOps<F>, key: Text, q: Quad, rest: seq<byte>, e: Entry<F>)
    ensures Wire.Decode(ChunkField(1, Utf8.Encode(key)) + rest, e, EntryReader(ops)) ==
            Wire.Decode(rest, e.(key := key), EntryReader(ops))
    ensures Wire.Decode(QuadField(2, q) + rest, e, EntryReader(ops)) ==
            Wire.Decode(rest, e.(value := ops.round2(ops.unpack(q))), EntryReader(ops))
    ensures rest == [] ==> ChunkField(1, Utf8.Encode(key)) + rest == ChunkField(1, Utf8.Encode(key)) && QuadField(2, q) + rest == QuadField(2, q)
  {
    TextRoundTrip(key);
    ReadChunk(1, Utf8.Encode(key), rest, e, EntryReader(ops));
    ReadQuad(2, q, rest, e, EntryReader(ops));
  }

  lemma EntryStored<F>(ops: FloatOps<F>, payload: seq<byte>, m: Sensor<F>)
    ensures Wire.Decode(ChunkField(6, payload), m, SensorReader(ops)) ==
            match Wire.Decode(payload, Entry([], ops.zero), EntryReader(ops))
            case None => None
            case Some(e) => Some(if e.key == [] then m else m.(extra := m.extra[e.key := e.value]))
  {
    LexChunk(6, payload, []);
    assert ChunkField(6, payload) + [] == ChunkField(6, payload);
  }

  // A sensor decoder never leaves its loop inside a well-formed buffer.
  lemma {:induction false} SensorNeverStops<F>(ops: FloatOps<F>, s: seq<byte>, m: Sensor<F>)
    requires WellFormed(s)
    ensures !Stops(s, m, SensorReader(ops))
    decreases |s|
  {
    if s != [] {
      var (token, rest) := Lex(s);
      match SensorField(ops, token, m)
      case Go(m') => SensorNeverStops(ops, rest, m');
      case _ =>
    }
  }

  // Concatenation is merging: whatever follows a well-formed buffer is decoded from its result.
  lemma SensorConcatenation<F>(ops: FloatOps<F>, a: seq<byte>, b: seq<byte>, m: Sensor<F>)
    requires WellFormed(a)
    ensures Wire.Decode(a + b, m, SensorReader(ops)) ==
            match Wire.Decode(a, m, SensorReader(ops))
            case None => None
            case Some(m') => Wire.Decode(b, m', SensorReader(ops))
  {
    SensorNeverStops(ops, a, m);
    DecodeAppend(a, b, m, SensorReader(ops));
  }

  // Two readings sent back to back decode as their merge.
  lemma TwoReadingsMerge<F>(ops: FloatOps<F>, first: Reading<F>, second: Reading<F>)
    ensures Wire.Decode(SensorBytes(ops, first) + SensorBytes(ops, second), Blank(ops), SensorReader(ops)) ==
            Some(MergeReading(ops, MergeReading(ops, Blank(ops), first), second))
  {
    SensorBytesWellFormed(ops, first);
    DecodeSensorBytes(ops, first, Blank(ops));
    DecodeSensorBytes(ops, second, MergeReading(ops, Blank(ops), first));
    SensorConcatenation(ops, SensorBytes(ops, first), SensorBytes(ops, second), Blank(ops));
  }

  lemma {:induction false} ExtraBytesWellFormed<F>(ops: FloatOps<F>, extra: seq<(Text, F)>)
    ensures WellFormed(ExtraBytes(ops, extra))
  {
    if extra != [] {
      LexChunk(6, EntryBytes(ops, extra[0]), ExtraBytes(ops, extra[1..]));
      ExtraBytesWellFormed(ops, extra[1..]);
    }
  }

  lemma SensorBytesWellFormed<F>(ops: FloatOps<F>, r: Reading<F>)
    ensures WellFormed(SensorBytes(ops, r))
  {
    var s6 := ExtraBytes(ops, r.extra);
    var s5 := NumberField(5, r.timestamp) + s6;
    var s4 := QuadField(4, ops.pack(r.pressure)) + s5;
    var s3 := QuadField(3, ops.pack(r.humidity)) + s4;
    var s2 := QuadField(2, ops.pack(r.temperature)) + s3;
    ExtraBytesWellFormed(ops, r.extra);
    LexNumber(5, r.timestamp, s6);
    assert WellFormed(s5);
    LexQuad(4, ops.pack(r.pressure), s5);
    assert WellFormed(s4);
    LexQuad(3, ops.pack(r.humidity), s4);
    assert WellFormed(s3);
    LexQuad(2, ops.pack(r.temperature), s3);
    assert WellFormed(s2);
    if r.deviceId == [] {
      assert SensorBytes(ops, r) == s2;
    } else {
      LexChunk(1, Utf8.Encode(r.deviceId), s2);
    }
  }

  // A field the sensor decoder does not know, of a wire type it can skip.
  predicate Unknown(t: Token) {
    match t
    case Number(field, _) => field != 5
    case Fixed64(_) => true
    case Chunk(field, _) => field != 1 && field != 6
    case Fixed32(field, _) => field != 2 && field != 3 && field != 4
    case _ => false
  }

  // Unknown fields may be inserted at any field boundary without changing the result.
  lemma UnknownFieldIgnored<F>(ops: FloatOps<F>, a: seq<byte>, u: seq<byte>, b: seq<byte>)
    requires WellFormed(a) && StartsField(u) && Lex(u).1 == [] && Unknown(Lex(u).0)
    ensures Wire.Decode(a + (u + b), Blank(ops), SensorReader(ops)) == Wire.Decode(a + b, Blank(ops), SensorReader(ops))
  {
    InsertIgnored(a, u, b, Blank(ops), SensorReader(ops), m => true);
  }

  // An entry without a key is dropped as well.
  predicate PassedOver<F>(ops: FloatOps<F>, t: Token) {
    || Unknown(t)
    || (t.Chunk? && t.field == 6
        && var e := Wire.Decode(t.payload, Entry([], ops.zero), EntryReader(ops)); e.Some? && e.value.key == [])
  }

  // The fields that may be inserted at any field boundary, into any message, are exactly the
  // unknown ones and the entries without a key. x and y are two floats.
  lemma InsertableIff<F(!new)>(ops: FloatOps<F>, u: seq<byte>, x: F, y: F)
    requires StartsField(u) && Lex(u).1 == [] && x != y
    ensures Insertable(u, SensorReader(ops), m => true) <==> PassedOver(ops, Lex(u).0)
  {
    var t := Lex(u).0;
    if PassedOver(ops, t) {
      PassedOverIsInsertable(u, SensorReader(ops), m => true);
    } else {
      var m0, m1 := Sensor([], x, x, x, 0, map[]), Sensor([65], y, y, y, 1, map[]);
      NotPassedOver(ops, t, m0, m1);
      if Insertable(u, SensorReader(ops), m => true) {
        SingleField(ops, u, m0);
        SingleField(ops, u, m1);
        InsertableHere(u, [], m0, SensorReader(ops), m => true);
        InsertableHere(u, [], m1, SensorReader(ops), m => true);
      }
    }
  }

  lemma NotPassedOver<F>(ops: FloatOps<F>, t: Token, m0: Sensor<F>, m1: Sensor<F>)
    requires !PassedOver(ops, t) && !t.Foreign? && m0.extra == m1.extra == map[]
    requires m0.deviceId != m1.deviceId && m0.timestamp != m1.timestamp
    requires m0.temperature != m1.temperature && m0.humidity != m1.humidity && m0.pressure != m1.pressure
    ensures SensorField(ops, t, m0) != Go(m0) || SensorField(ops, t, m1) != Go(m1)
  {
    if t.Chunk? && t.field == 6 && SensorField(ops, t, m0).Go? {
      var e := Wire.Decode(t.payload, Entry([], ops.zero), EntryReader(ops)).value;
      assert e.key in SensorField(ops, t, m0).message.extra;
    }
  }

  // What one field alone does.
  lemma SingleField<F>(ops: FloatOps<F>, u: seq<byte>, m: Sensor<F>)
    requires StartsField(u) && Lex(u).1 == []
    ensures !Lex(u).0.Foreign?
    ensures Wire.Decode(u + [], m, SensorReader(ops)) ==
            (match SensorField(ops, Lex(u).0, m) case Go(m') => Some(m') case Stop => Some(m) case Raise => None)
    ensures !SensorField(ops, Lex(u).0, m).Stop?
  {
    assert u + [] == u;
  }
}
