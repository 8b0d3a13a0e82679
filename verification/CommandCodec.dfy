// backend/proto_codec.py: the DeviceCommand and CommandAck messages. Both are n strings in
// fields 1..n followed by a timestamp in field n + 1 (n = 3 and n = 4), and both decoders
// leave the loop at the first field that is neither a number nor a string.
module CommandCodec {
  import opened Prelude
  import opened Base128
  import opened Utf8
  import opened Wire

  datatype DeviceCommand = DeviceCommand(commandId: Text, command: Text, payload: Text, timestamp: nat)

  datatype CommandAck = CommandAck(commandId: Text, deviceName: Text, status: Text, message: Text, timestamp: nat)

  datatype TextMessage = TextMessage(strings: seq<Text>, timestamp: nat)

  function OfCommand(c: DeviceCommand): TextMessage {
    TextMessage([c.commandId, c.command, c.payload], c.timestamp)
  }

  function OfAck(a: CommandAck): TextMessage {
    TextMessage([a.commandId, a.deviceName, a.status, a.message], a.timestamp)
  }

  const BLANK_COMMAND := DeviceCommand([], [], [], 0)
  const BLANK_ACK := CommandAck([], [], [], [], 0)

  // What one field does to a message of n strings.
  function TextField(t: Token, m: TextMessage): Verdict<TextMessage> {
    match t
    case Number(field, value) => Go(if field == |m.strings| + 1 then m.(timestamp := value) else m)
    case Chunk(field, payload) =>
      (match Utf8.Decode(payload)
       case None => Raise
       case Some(text) => Go(if 1 <= field <= |m.strings| then m.(strings := m.strings[field - 1 := text]) else m))
    case _ => Stop
  }

  function TextReader(): Reader<TextMessage> {
    (t, m) => TextField(t, m)
  }

  function CommandField(t: Token, c: DeviceCommand): Verdict<DeviceCommand> {
    match t
    case Number(field, value) => Go(if field == 4 then c.(timestamp := value) else c)
    case Chunk(field, payload) =>
      (match Utf8.Decode(payload)
       case None => Raise
       case Some(text) =>
         Go(if field == 1 then c.(commandId := text)
            else if field == 2 then c.(command := text)
            else if field == 3 then c.(payload := text)
            else c))
    case _ => Stop
  }

  function CommandReader(): Reader<DeviceCommand> {
    (t, c) => CommandField(t, c)
  }

  function AckField(t: Token, a: CommandAck): Verdict<CommandAck> {
    match t
    case Number(field, value) => Go(if field == 5 then a.(timestamp := value) else a)
    case Chunk(field, payload) =>
      (match Utf8.Decode(payload)
       case None => Raise
       case Some(text) =>
         Go(if field == 1 then a.(commandId := text)
            else if field == 2 then a.(deviceName := text)
            else if field == 3 then a.(status := text)
            else if field == 4 then a.(message := text)
            else a))
    case _ => Stop
  }

  function AckReader(): Reader<CommandAck> {
    (t, a) => AckField(t, a)
  }

  method DecodeDeviceCommand(data: seq<byte>) returns (r: Option<DeviceCommand>)
    ensures r == Wire.Decode(data, BLANK_COMMAND, CommandReader())
  {
    var c := BLANK_COMMAND;
    ghost var read := CommandReader();
    ghost var whole := Wire.Decode(data, c, read);
    var pos: nat := 0;
    assert data == Drop(data, 0);
    while pos < |data|
      invariant Wire.Decode(Drop(data, pos), c, read) == whole
      decreases |data| - pos
    {
      var field, wire, p := DecodeKey(data, pos);
      FieldAt(data, pos, field, wire, p);
      if wire == 0 {
        var value, q := DecodeVarint(data, p);
        if field == 4 {
          c := c.(timestamp := value);
        }
        pos := q;
      } else if wire == 2 {
        var value, q := DecodeSlice(data, p);
        var text := Utf8.Decode(value);
        if text.None? {
          return None;
        }
        pos := q;
        if field == 1 {
          c := c.(commandId := text.value);
        } else if field == 2 {
          c := c.(command := text.value);
        } else if field == 3 {
          c := c.(payload := text.value);
        }
      } else {
        break;
      }
    }
    r := Some(c);
  }

  method DecodeCommandAck(data: seq<byte>) returns (r: Option<CommandAck>)
    ensures r == Wire.Decode(data, BLANK_ACK, AckReader())
  {
    var a := BLANK_ACK;
    ghost var read := AckReader();
    ghost var whole := Wire.Decode(data, a, read);
    var pos: nat := 0;
    assert data == Drop(data, 0);
    while pos < |data|
      invariant Wire.Decode(Drop(data, pos), a, read) == whole
      decreases |data| - pos
    {
      var field, wire, p := DecodeKey(data, pos);
      FieldAt(data, pos, field, wire, p);
      if wire == 0 {
        var value, q := DecodeVarint(data, p);
        if field == 5 {
          a := a.(timestamp := value);
        }
        pos := q;
      } else if wire == 2 {
        var value, q := DecodeSlice(data, p);
        var text := Utf8.Decode(value);
        if text.None? {
          return None;
        }
        pos := q;
        if field == 1 {
          a := a.(commandId := text.value);
        } else if field == 2 {
          a := a.(deviceName := text.value);
        } else if field == 3 {
          a := a.(status := text.value);
        } else if field == 4 {
          a := a.(message := text.value);
        }
      } else {
        break;
      }
    }
    r := Some(a);
  }

  lemma CommandFields(c: DeviceCommand, t: Text)
    ensures var s := OfCommand(c).strings;
      && OfCommand(c.(commandId := t)).strings == s[0 := t]
      && OfCommand(c.(command := t)).strings == s[1 := t]
      && OfCommand(c.(payload := t)).strings == s[2 := t]
  {
  }

  lemma AckFields(a: CommandAck, t: Text)
    ensures var s := OfAck(a).strings;
      && OfAck(a.(commandId := t)).strings == s[0 := t]
      && OfAck(a.(deviceName := t)).strings == s[1 := t]
      && OfAck(a.(status := t)).strings == s[2 := t]
      && OfAck(a.(message := t)).strings == s[3 := t]
  {
  }

  // Both decoders are the n-string decoder.
  lemma {:induction false} CommandIsTextMessage(s: seq<byte>, c: DeviceCommand)
    ensures Wire.Decode(s, OfCommand(c), TextReader()) ==
            match Wire.Decode(s, c, CommandReader()) case None => None case Some(c') => Some(OfCommand(c'))
    decreases |s|
  {
    if s != [] {
      var (t, rest) := Lex(s);
      match CommandField(t, c)
      case Go(c') =>
        if t.Chunk? {
          CommandFields(c, Utf8.Decode(t.payload).value);
        }
        assert TextField(t, OfCommand(c)) == Go(OfCommand(c'));
        CommandIsTextMessage(rest, c');
      case _ =>
    }
  }

  lemma {:induction false} AckIsTextMessage(s: seq<byte>, a: CommandAck)
    ensures Wire.Decode(s, OfAck(a), TextReader()) ==
            match Wire.Decode(s, a, AckReader()) case None => None case Some(a') => Some(OfAck(a'))
    decreases |s|
  {
    if s != [] {
      var (t, rest) := Lex(s);
      match AckField(t, a)
      case Go(a') =>
        if t.Chunk? {
          AckFields(a, Utf8.Decode(t.payload).value);
        }
        assert TextField(t, OfAck(a)) == Go(OfAck(a'));
        AckIsTextMessage(rest, a');
      case _ =>
    }
  }

  // ---- Encoding ----

  // The bytes of each message, field by field.
  // What single fields mean: strings 1 to 3 of a command and its timestamp 4,
  lemma CommandFieldMeans(field: nat, payload: seq<byte>, n: nat, c: DeviceCommand)
    ensures Wire.Decode(ChunkField(field, payload), c, CommandReader()) ==
            match Utf8.Decode(payload)
            case None => None
            case Some(t) => Some(match field
                                 case 1 => DeviceCommand(t, c.command, c.payload, c.timestamp)
                                 case 2 => DeviceCommand(c.commandId, t, c.payload, c.timestamp)
                                 case 3 => DeviceCommand(c.commandId, c.command, t, c.timestamp)
                                 case _ => c)
    ensures Wire.Decode(NumberField(field, n), c, CommandReader()) ==
            Some(if field == 4 then DeviceCommand(c.commandId, c.command, c.payload, n) else c)
  {
    LexChunk(field, payload, []);
    ReadNumber(field, n, [], c, CommandReader());
    assert ChunkField(field, payload) + [] == ChunkField(field, payload) && NumberField(field, n) + [] == NumberField(field, n);
  }

  // ... and strings 1 to 4 of an acknowledgement and its timestamp 5.
  lemma AckFieldMeans(field: nat, payload: seq<byte>, n: nat, a: CommandAck)
    ensures Wire.Decode(ChunkField(field, payload), a, AckReader()) ==
            match Utf8.Decode(payload)
            case None => None
            case Some(t) => Some(match field
                                 case 1 => CommandAck(t, a.deviceName, a.status, a.message, a.timestamp)
                                 case 2 => CommandAck(a.commandId, t, a.status, a.message, a.timestamp)
                                 case 3 => CommandAck(a.commandId, a.deviceName, t, a.message, a.timestamp)
                                 case 4 => CommandAck(a.commandId, a.deviceName, a.status, t, a.timestamp)
                                 case _ => a)
    ensures Wire.Decode(NumberField(field, n), a, AckReader()) ==
            Some(if field == 5 then CommandAck(a.commandId, a.deviceName, a.status, a.message, n) else a)
  {
    LexChunk(field, payload, []);
    ReadNumber(field, n, [], a, AckReader());
    assert ChunkField(field, payload) + [] == ChunkField(field, payload) && NumberField(field, n) + [] == NumberField(field, n);
  }

  function CommandBytes(c: DeviceCommand): seq<byte> {
    StringField(1, c.commandId) + (StringField(2, c.command) + (StringField(3, c.payload) + NumberField(4, c.timestamp)))
  }

  function AckBytes(a: CommandAck): seq<byte> {
    StringField(1, a.commandId) + (StringField(2, a.deviceName) + (StringField(3, a.status) +
    (StringField(4, a.message) + NumberField(5, a.timestamp))))
  }

  // `if value: buf += _encode_string(field, value)`
  method AppendString(buf: seq<byte>, field: nat, value: Text) returns (s: seq<byte>)
    ensures s == buf + StringField(field, value)
  {
    s := buf;
    if value != [] {
      var chunk := EncodeChunk(field, Utf8.Encode(value));
      s := s + chunk;
    }
  }

  method EncodeDeviceCommand(c: DeviceCommand, now: nat) returns (buf: seq<byte>)
    ensures buf == CommandBytes(if c.timestamp == 0 then c.(timestamp := now) else c)
  {
    var timestamp := if c.timestamp == 0 then now else c.timestamp;
    CommandBytesInOrder(c.(timestamp := timestamp));
    buf := AppendString([], 1, c.commandId);
    buf := AppendString(buf, 2, c.command);
    buf := AppendString(buf, 3, c.payload);
    var ts := EncodeNumber(4, timestamp);
    buf := buf + ts;
  }

  method EncodeCommandAck(a: CommandAck, now: nat) returns (buf: seq<byte>)
    ensures buf == AckBytes(if a.timestamp == 0 then a.(timestamp := now) else a)
  {
    var timestamp := if a.timestamp == 0 then now else a.timestamp;
    AckBytesInOrder(a.(timestamp := timestamp));
    buf := AppendString([], 1, a.commandId);
    buf := AppendString(buf, 2, a.deviceName);
    buf := AppendString(buf, 3, a.status);
    buf := AppendString(buf, 4, a.message);
    var ts := EncodeNumber(5, timestamp);
    buf := buf + ts;
  }

  // The order in which the encoders append the fields.
  lemma CommandBytesInOrder(c: DeviceCommand)
    ensures [] + StringField(1, c.commandId) + StringField(2, c.command) + StringField(3, c.payload)
            + NumberField(4, c.timestamp) == CommandBytes(c)
  {
    RegroupFields(StringField(1, c.commandId), StringField(2, c.command), StringField(3, c.payload),
                  NumberField(4, c.timestamp));
  }

  lemma RegroupFields(a: seq<byte>, b: seq<byte>, c: seq<byte>, d: seq<byte>)
    ensures [] + a + b + c + d == a + (b + (c + d))
  {
  }

  lemma AckBytesInOrder(a: CommandAck)
    ensures [] + StringField(1, a.commandId) + StringField(2, a.deviceName) + StringField(3, a.status)
            + StringField(4, a.message) + NumberField(5, a.timestamp) == AckBytes(a)
  {
    Regroup([], StringField(1, a.commandId), StringField(2, a.deviceName), StringField(3, a.status),
            StringField(4, a.message), NumberField(5, a.timestamp));
  }

  function TextToken(field: nat, t: Text): seq<Token> {
    if t == [] then [] else [Chunk(field, Utf8.Encode(t))]
  }

  // What is written, in order: the strings that are not empty, and the timestamp.
  lemma CommandTokens(c: DeviceCommand)
    ensures Tokens(CommandBytes(c)) ==
            TextToken(1, c.commandId) + (TextToken(2, c.command) + (TextToken(3, c.payload) + [Number(4, c.timestamp)]))
  {
    var s4 := NumberField(4, c.timestamp);
    var s3 := StringField(3, c.payload) + s4;
    TokensOfString(1, c.commandId, StringField(2, c.command) + s3);
    TokensOfString(2, c.command, s3);
    TokensOfString(3, c.payload, s4);
    TokensOfField(4, c.timestamp, [], Quad(0, 0, 0, 0), []);
    assert s4 + [] == s4 && [Number(4, c.timestamp)] + [] == [Number(4, c.timestamp)];
  }

  lemma AckTokens(a: CommandAck)
    ensures Tokens(AckBytes(a)) ==
            TextToken(1, a.commandId) + (TextToken(2, a.deviceName) + (TextToken(3, a.status) +
            (TextToken(4, a.message) + [Number(5, a.timestamp)])))
  {
    var s5 := NumberField(5, a.timestamp);
    var s4 := StringField(4, a.message) + s5;
    var s3 := StringField(3, a.status) + s4;
    TokensOfString(1, a.commandId, StringField(2, a.deviceName) + s3);
    TokensOfString(2, a.deviceName, s3);
    TokensOfString(3, a.status, s4);
    TokensOfString(4, a.message, s5);
    TokensOfField(5, a.timestamp, [], Quad(0, 0, 0, 0), []);
    assert s5 + [] == s5 && [Number(5, a.timestamp)] + [] == [Number(5, a.timestamp)];
  }

  // The strings of m from the i-th on, then the timestamp. Empty strings are not sent.
  function TextBytes(m: TextMessage, i: nat): seq<byte>
    requires i <= |m.strings|
    decreases |m.strings| - i
  {
    if i == |m.strings| then NumberField(i + 1, m.timestamp)
    else StringField(i + 1, m.strings[i]) + TextBytes(m, i + 1)
  }

  // ---- Main results ----

  // The strings of m overwritten by the non-empty ones of s, from the i-th on.
  function Overlay(m: seq<Text>, s: seq<Text>, i: nat): (r: seq<Text>)
    requires |m| == |s| && i <= |s|
    ensures |r| == |s|
    ensures forall k :: 0 <= k < |s| ==> r[k] == if k < i || s[k] == [] then m[k] else s[k]
    decreases |s| - i
  {
    if i == |s| then m else Overlay(if s[i] == [] then m else m[i := s[i]], s, i + 1)
  }

  lemma ReadString(field: nat, text: Text, rest: seq<byte>, m: TextMessage)
    requires 1 <= field <= |m.strings|
    ensures Wire.Decode(StringField(field, text) + rest, m, TextReader()) ==
            Wire.Decode(rest, if text == [] then m else m.(strings := m.strings[field - 1 := text]), TextReader())
  {
    if text == [] {
      assert [] + rest == rest;
    } else {
      TextRoundTrip(text);
      ReadChunk(field, Utf8.Encode(text), rest, m, TextReader());
    }
  }

  lemma {:induction false} DecodeTextFrom(m: TextMessage, base: TextMessage, i: nat)
    requires |m.strings| == |base.strings| && i <= |m.strings|
    ensures Wire.Decode(TextBytes(m, i), base, TextReader()) ==
            Some(TextMessage(Overlay(base.strings, m.strings, i), m.timestamp))
    decreases |m.strings| - i
  {
    var n := |m.strings|;
    if i == n {
      ReadTimestamp(m.timestamp, base);
    } else {
      var s := m.strings[i];
      ReadString(i + 1, s, TextBytes(m, i + 1), base);
      DecodeTextFrom(m, if s == [] then base else base.(strings := base.strings[i := s]), i + 1);
    }
  }

  lemma ReadTimestamp(timestamp: nat, m: TextMessage)
    ensures Wire.Decode(NumberField(|m.strings| + 1, timestamp), m, TextReader()) == Some(m.(timestamp := timestamp))
  {
    var s := NumberField(|m.strings| + 1, timestamp);
    assert s + [] == s;
    ReadNumber(|m.strings| + 1, timestamp, [], m, TextReader());
  }

  // Decoding inverts encoding, whatever the strings and the timestamp.
  lemma TextMessageRoundTrip(m: TextMessage)
    ensures Wire.Decode(TextBytes(m, 0), TextMessage(seq(|m.strings|, i => []), 0), TextReader()) == Some(m)
  {
    var blank := TextMessage(seq(|m.strings|, i => []), 0);
    DecodeTextFrom(m, blank, 0);
    assert Overlay(blank.strings, m.strings, 0) == m.strings;
  }

  lemma CommandBytesAreText(c: DeviceCommand)
    ensures TextBytes(OfCommand(c), 0) == CommandBytes(c)
  {
    var m := OfCommand(c);
    assert TextBytes(m, 3) == NumberField(4, c.timestamp);
    assert TextBytes(m, 2) == StringField(3, c.payload) + TextBytes(m, 3);
    assert TextBytes(m, 1) == StringField(2, c.command) + TextBytes(m, 2);
  }

  lemma AckBytesAreText(a: CommandAck)
    ensures TextBytes(OfAck(a), 0) == AckBytes(a)
  {
    var m := OfAck(a);
    assert TextBytes(m, 4) == NumberField(5, a.timestamp);
    assert TextBytes(m, 3) == StringField(4, a.message) + TextBytes(m, 4);
    assert TextBytes(m, 2) == StringField(3, a.status) + TextBytes(m, 3);
    assert TextBytes(m, 1) == StringField(2, a.deviceName) + TextBytes(m, 2);
  }

  lemma CommandRoundTrip(c: DeviceCommand)
    ensures Wire.Decode(CommandBytes(c), BLANK_COMMAND, CommandReader()) == Some(c)
  {
    var m, s := OfCommand(c), CommandBytes(c);
    CommandBytesAreText(c);
    TextMessageRoundTrip(m);
    assert OfCommand(BLANK_COMMAND) == TextMessage(seq(|m.strings|, i => []), 0);
    CommandIsTextMessage(s, BLANK_COMMAND);
    OfCommandInjective(Wire.Decode(s, BLANK_COMMAND, CommandReader()).value, c);
  }

  lemma OfCommandInjective(a: DeviceCommand, b: DeviceCommand)
    requires OfCommand(a) == OfCommand(b)
    ensures a == b
  {
    assert forall i :: 0 <= i < 3 ==> OfCommand(a).strings[i] == OfCommand(b).strings[i];
  }

  lemma AckRoundTrip(a: CommandAck)
    ensures Wire.Decode(AckBytes(a), BLANK_ACK, AckReader()) == Some(a)
  {
    var m, s := OfAck(a), AckBytes(a);
    AckBytesAreText(a);
    TextMessageRoundTrip(m);
    assert OfAck(BLANK_ACK) == TextMessage(seq(|m.strings|, i => []), 0);
    AckIsTextMessage(s, BLANK_ACK);
    OfAckInjective(Wire.Decode(s, BLANK_ACK, AckReader()).value, a);
  }

  lemma OfAckInjective(a: CommandAck, b: CommandAck)
    requires OfAck(a) == OfAck(b)
    ensures a == b
  {
    assert forall i :: 0 <= i < 4 ==> OfAck(a).strings[i] == OfAck(b).strings[i];
  }

  // The fields that leave every n-string message as it is: numbers and valid strings with
  // other field numbers. Wire types 1 and 5 are not among them.
  predicate Skipped(n: nat, t: Token) {
    match t
    case Number(field, _) => field != n + 1
    case Chunk(field, payload) => !(1 <= field <= n) && Utf8.Decode(payload).Some?
    case _ => false
  }

  // ---- Inserting a field ----

  predicate OfLength(n: nat, m: TextMessage) {
    |m.strings| == n
  }

  // A field may be inserted at any field boundary, into any message of n strings, exactly when
  // it is a skipped one.
  lemma InsertableIffSkipped(n: nat, u: seq<byte>)
    requires StartsField(u) && Lex(u).1 == []
    ensures Insertable(u, TextReader(), m => OfLength(n, m)) <==> Skipped(n, Lex(u).0)
  {
    if Skipped(n, Lex(u).0) {
      PassedOverIsInsertable(u, TextReader(), m => OfLength(n, m));
    } else {
      var b, m := NotInsertable(n, u);
      if Insertable(u, TextReader(), m => OfLength(n, m)) {
        InsertableHere(u, b, m, TextReader(), m => OfLength(n, m));
      }
    }
  }

  // An input that shows it: in front of b, the field u changes what is decoded.
  lemma NotInsertable(n: nat, u: seq<byte>) returns (b: seq<byte>, m: TextMessage)
    requires StartsField(u) && Lex(u).1 == [] && !Skipped(n, Lex(u).0)
    ensures OfLength(n, m) && Wire.Decode(u + b, m, TextReader()) != Wire.Decode(b, m, TextReader())
  {
    var t := Lex(u).0;
    var m0, m1 := TextMessage(seq(n, i => []), 0), TextMessage(seq(n, i => [65]), 1);
    if TextField(t, m0).Stop? {
      b, m := NumberField(n + 1, 2), m0;
      ReadTimestamp(2, m0);
    } else {
      b, m := [], if TextField(t, m0) == Go(m0) then m1 else m0;
      if t.Chunk? && 1 <= t.field <= n && Utf8.Decode(t.payload).Some? {
        assert m0.strings[t.field - 1] == [] && m1.strings[t.field - 1] == [65];
      }
    }
    FirstField(u, b, m);
  }

  // A 32-bit field 5 in front of the timestamp 7: the decoder returns the message without it.
  lemma TimestampLost(c: DeviceCommand)
    ensures Wire.Decode(NumberField(4, 7), c, CommandReader()) == Some(c.(timestamp := 7))
    ensures Wire.Decode(QuadField(5, Quad(0, 0, 0, 0)) + NumberField(4, 7), c, CommandReader()) == Some(c)
  {
    var s := NumberField(4, 7);
    assert s + [] == s;
    LexNumber(4, 7, []);
    LexQuad(5, Quad(0, 0, 0, 0), s);
  }

  // What a first field does.
  lemma FirstField(u: seq<byte>, b: seq<byte>, m: TextMessage)
    requires StartsField(u) && Lex(u).1 == []
    ensures Wire.Decode(u + b, m, TextReader()) ==
            (match TextField(Lex(u).0, m)
             case Go(m') => Wire.Decode(b, m', TextReader())
             case Stop => Some(m)
             case Raise => None)
  {
    LexAppend(u, b);
    assert Lex(u).1 + b == b;
  }

  // The same of the two messages.
  lemma SameCommandDecode(s: seq<byte>, t: seq<byte>, c: DeviceCommand)
    ensures SameResult(s, t, c, CommandReader()) <==> SameResult(s, t, OfCommand(c), TextReader())
  {
    CommandIsTextMessage(s, c);
    CommandIsTextMessage(t, c);
    var p, q := Wire.Decode(s, c, CommandReader()), Wire.Decode(t, c, CommandReader());
    if p.Some? && q.Some? && OfCommand(p.value) == OfCommand(q.value) {
      OfCommandInjective(p.value, q.value);
    }
  }

  function ToCommand(m: TextMessage): DeviceCommand {
    if OfLength(3, m) then DeviceCommand(m.strings[0], m.strings[1], m.strings[2], m.timestamp) else BLANK_COMMAND
  }

  lemma ToCommandExact()
    ensures forall m :: OfLength(3, m) ==> OfCommand(ToCommand(m)) == m
  {
    forall m | OfLength(3, m)
      ensures OfCommand(ToCommand(m)) == m
    {
      assert OfCommand(ToCommand(m)).strings == m.strings;
    }
  }

  lemma CommandInsertableIff(u: seq<byte>)
    requires StartsField(u) && Lex(u).1 == []
    ensures Insertable(u, CommandReader(), c => true) <==> Skipped(3, Lex(u).0)
  {
    InsertableIffSkipped(3, u);
    forall s: seq<byte>, t: seq<byte>, c: DeviceCommand
      ensures SameResult(s, t, c, CommandReader()) <==> SameResult(s, t, OfCommand(c), TextReader())
    {
      SameCommandDecode(s, t, c);
    }
    ToCommandExact();
    InsertableTransfer(u, CommandReader(), c => true, TextReader(), m => OfLength(3, m), c => OfCommand(c), m => ToCommand(m));
  }

  lemma SameAckDecode(s: seq<byte>, t: seq<byte>, k: CommandAck)
    ensures SameResult(s, t, k, AckReader()) <==> SameResult(s, t, OfAck(k), TextReader())
  {
    AckIsTextMessage(s, k);
    AckIsTextMessage(t, k);
    var p, q := Wire.Decode(s, k, AckReader()), Wire.Decode(t, k, AckReader());
    if p.Some? && q.Some? && OfAck(p.value) == OfAck(q.value) {
      OfAckInjective(p.value, q.value);
    }
  }

  function ToAck(m: TextMessage): CommandAck {
    if OfLength(4, m) then CommandAck(m.strings[0], m.strings[1], m.strings[2], m.strings[3], m.timestamp) else BLANK_ACK
  }

  lemma ToAckExact()
    ensures forall m :: OfLength(4, m) ==> OfAck(ToAck(m)) == m
  {
    forall m | OfLength(4, m)
      ensures OfAck(ToAck(m)) == m
    {
      assert OfAck(ToAck(m)).strings == m.strings;
    }
  }

  lemma AckInsertableIff(u: seq<byte>)
    requires StartsField(u) && Lex(u).1 == []
    ensures Insertable(u, AckReader(), k => true) <==> Skipped(4, Lex(u).0)
  {
    InsertableIffSkipped(4, u);
    forall s: seq<byte>, t: seq<byte>, k: CommandAck
      ensures SameResult(s, t, k, AckReader()) <==> SameResult(s, t, OfAck(k), TextReader())
    {
      SameAckDecode(s, t, k);
    }
    ToAckExact();
    InsertableTransfer(u, AckReader(), k => true, TextReader(), m => OfLength(4, m), k => OfAck(k), m => ToAck(m));
  }

  // A fixed-width field ends the message: everything after it is lost.
  lemma FixedFieldEndsMessage(a: seq<byte>, u: seq<byte>, b: seq<byte>, m: TextMessage)
    requires WellFormed(a) && StartsField(u) && Lex(u).1 == [] && (Lex(u).0.Fixed32? || Lex(u).0.Fixed64?)
    ensures Wire.Decode(a + (u + b), m, TextReader()) == Wire.Decode(a, m, TextReader())
  {
    DecodeAppend(a, u + b, m, TextReader());
    LexAppend(u, b);
  }
}
