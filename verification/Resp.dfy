/** The RESP wire format of `internal/server/resp.go`: the encoder, the parser and
    the laws that tie them together. */
module Resp {
  import opened Bytes

  const MAX_DEPTH: nat := 32
  const MAX_BULK: nat := 512 * 1024 * 1024

  /** More array elements than this are not allocated: at 64 bytes each they exceed the 2^48
      bytes of the address space (on amd64), and `make` panics. */
  const MAX_ARRAY: nat := 0x400_0000_0000

  // The type bytes '+', '-', ':', '$' and '*'.
  const SIMPLE: byte := 43
  const ERROR: byte := 45
  const INTEGER: byte := 58
  const BULK: byte := 36
  const ARRAY: byte := 42

  /** `NullBulk` and `NullArray` are the values whose `IsNull` flag is set. */
  datatype Value =
    | SimpleString(str: bytes)
    | Error(str: bytes)
    | Integer(num: int)
    | BulkString(str: bytes)
    | NullBulk
    | Array(elems: seq<Value>)
    | NullArray

  // ---------- Encoding ----------

  function Header(tag: byte, text: bytes): bytes {
    [tag] + text + CRLF
  }

  function Encode(v: Value): bytes
    decreases v, 1
  {
    match v
    case SimpleString(s) => Header(SIMPLE, s)
    case Error(s) => Header(ERROR, s)
    case Integer(i) => Header(INTEGER, FormatInt(i))
    case NullBulk => Header(BULK, FormatInt(-1))
    case BulkString(s) => Header(BULK, FormatInt(|s|)) + s + CRLF
    case NullArray => Header(ARRAY, FormatInt(-1))
    case Array(es) => Header(ARRAY, FormatInt(|es|)) + EncodeAll(es)
  }

  function EncodeAll(vs: seq<Value>): bytes
    decreases vs, 0
  {
    if vs == [] then [] else Encode(vs[0]) + EncodeAll(vs[1..])
  }

  /** `b` is what is left of `a` when a beginning has been consumed. */
  predicate IsSuffix(b: bytes, a: bytes): (r: bool)
    ensures r ==> |b| <= |a|
  {
    b == a || (a != [] && IsSuffix(b, a[1..]))
  }

  // ---------- Parsing ----------

  datatype Failure = EndOfInput | UnknownType | InvalidFormat | TooDeep | TooLarge

  /** The outcome of one read.  `leak` is what the failed read leaves added to the depth
      counter.  `Panicked` is a Go run-time panic, which ends the process. */
  datatype Parse<+T> =
    | Parsed(value: T, rest: bytes)
    | Failed(failure: Failure, leak: nat)
    | Panicked

  /** A line that must end in CRLF, without that ending. */
  function ParseText(s: bytes): (r: Parse<bytes>)
    ensures r.Parsed? ==> |r.rest| < |s|
  {
    match ReadLine(s)
    case NoLine => Failed(InvalidFormat, 0)
    case Line(t, rest) =>
      if |t| < 2 || t[|t| - 2] != CR then Failed(InvalidFormat, 0)
      else Parsed(t[..|t| - 2], rest)
  }

  /** A length line: its last two bytes are cut off whatever they are, and cutting two
      bytes off a one-byte line panics. */
  function ParseLength(s: bytes): (r: Parse<int>)
    ensures r.Parsed? ==> |r.rest| < |s| && IsInt64(r.value)
  {
    match ReadLine(s)
    case NoLine => Failed(InvalidFormat, 0)
    case Line(t, rest) =>
      if |t| < 2 then Panicked
      else
        match ParseInt(t[..|t| - 2])
        case None => Failed(InvalidFormat, 0)
        case Some(n) => Parsed(n, rest)
  }

  function ParseInteger(s: bytes): (r: Parse<Value>)
    ensures r.Parsed? ==> |r.rest| < |s|
  {
    match ParseText(s)
    case Failed(f, leak) => Failed(f, leak)
    case Panicked => Panicked
    case Parsed(t, rest) =>
      match ParseInt(t)
      case Some(i) => Parsed(Integer(i), rest)
      case None => Failed(InvalidFormat, 0)
  }

  function ParseBulk(s: bytes): (r: Parse<Value>)
    ensures r.Parsed? ==> |r.rest| < |s|
  {
    match ParseLength(s)
    case Failed(f, leak) => Failed(f, leak)
    case Panicked => Panicked
    case Parsed(n, body) =>
      if n == -1 then Parsed(NullBulk, body)
      else if n == 0 then Parsed(BulkString([]), body)
      else if n > MAX_BULK then Failed(TooLarge, 0)
      else if n < -1 then Panicked
      else if |body| < n + 2 then Failed(InvalidFormat, 0)
      else Parsed(BulkString(body[..n]), body[n + 2..])
  }

  /** What follows the type byte of anything but an array. */
  function ParseScalar(tag: byte, s: bytes): (r: Parse<Value>)
    ensures r.Parsed? ==> |r.rest| < |s|
  {
    if tag == SIMPLE || tag == ERROR then
      match ParseText(s)
      case Parsed(t, rest) => Parsed(if tag == SIMPLE then SimpleString(t) else Error(t), rest)
      case Failed(f, leak) => Failed(f, leak)
      case Panicked => Panicked
    else if tag == INTEGER then ParseInteger(s)
    else if tag == BULK then ParseBulk(s)
    else Failed(UnknownType, 0)
  }

  /** `RESPParser.Read` on the unread input `s`, with the depth counter at `depth`. */
  function ParseValue(s: bytes, depth: nat): (r: Parse<Value>)
    ensures r.Parsed? ==> |r.rest| < |s|
    decreases |s|, 0
  {
    if s == [] then Failed(EndOfInput, 0)
    else if s[0] == ARRAY then ParseArray(s[1..], depth)
    else ParseScalar(s[0], s[1..])
  }

  /** The counter goes up before the limit test and comes down by a deferred call that is
      installed after it, so the too-deep path leaves it one higher. */
  function ParseArray(s: bytes, depth: nat): (r: Parse<Value>)
    ensures r.Parsed? ==> |r.rest| < |s|
    decreases |s|, 0
  {
    if depth + 1 > MAX_DEPTH then Failed(TooDeep, 1)
    else
      match ParseLength(s)
      case Failed(f, leak) => Failed(f, leak)
      case Panicked => Panicked
      case Parsed(n, body) =>
        if n == -1 then Parsed(NullArray, body)
        else if n < -1 || n > MAX_ARRAY then Panicked
        else
          match ParseMany(body, n, depth + 1)
          case Parsed(es, rest) => Parsed(Array(es), rest)
          case Failed(_, leak) => Failed(InvalidFormat, leak)
          case Panicked => Panicked
  }

  /** Exactly `n` values, one after the other. */
  function ParseMany(s: bytes, n: nat, depth: nat): (r: Parse<seq<Value>>)
    ensures r.Parsed? ==> |r.rest| <= |s| && |r.value| == n
    decreases |s|, n
  {
    if n == 0 then Parsed([], s)
    else
      match ParseValue(s, depth)
      case Failed(f, leak) => Failed(f, leak)
      case Panicked => Panicked
      case Parsed(v, rest) =>
        match ParseMany(rest, n - 1, depth)
        case Failed(f, leak) => Failed(f, leak)
        case Panicked => Panicked
        case Parsed(vs, rest') => Parsed([v] + vs, rest')
  }

  // ---------- What can be sent, and what comes back ----------

  /** Values the protocol can carry, in at most `budget` nested arrays. */
  predicate Sendable(v: Value, budget: nat)
    decreases v, 1
  {
    match v
    case SimpleString(s) => LF !in s
    case Error(s) => LF !in s
    case Integer(i) => IsInt64(i)
    case NullBulk => true
    case BulkString(s) => |s| <= MAX_BULK
    case NullArray => budget > 0
    case Array(es) => budget > 0 && |es| <= MAX_ARRAY && AllSendable(es, budget - 1)
  }

  predicate AllSendable(vs: seq<Value>, budget: nat)
    decreases vs, 0
  {
    vs == [] || (Sendable(vs[0], budget) && AllSendable(vs[1..], budget))
  }

  /** No empty (and non-null) bulk string occurs in `v`. */
  predicate NoEmptyBulk(v: Value)
    decreases v, 1
  {
    match v
    case BulkString(s) => s != []
    case Array(es) => NoneEmpty(es)
    case _ => true
  }

  predicate NoneEmpty(vs: seq<Value>)
    decreases vs, 0
  {
    vs == [] || (NoEmptyBulk(vs[0]) && NoneEmpty(vs[1..]))
  }

  lemma ParseTextOf(t: bytes, rest: bytes)
    requires LF !in t
    ensures ParseText(t + CRLF + rest) == Parsed(t, rest)
  {
    var line := t + [CR];
    assert t + CRLF + rest == line + [LF] + rest;
    ReadLineOf(line, rest);
    assert (line + [LF])[..|t|] == t;
  }

  lemma ParseLengthOf(n: int, rest: bytes)
    requires IsInt64(n)
    ensures ParseLength(FormatInt(n) + CRLF + rest) == Parsed(n, rest)
  {
    var t := FormatInt(n);
    var line := t + [CR];
    assert t + CRLF + rest == line + [LF] + rest;
    ReadLineOf(line, rest);
    assert (line + [LF])[..|t|] == t;
    ParseIntRoundTrip(n);
  }

  lemma ParseIntegerOf(i: int, rest: bytes)
    requires IsInt64(i)
    ensures ParseInteger(FormatInt(i) + CRLF + rest) == Parsed(Integer(i), rest)
  {
    ParseTextOf(FormatInt(i), rest);
    ParseIntRoundTrip(i);
  }

  /** The empty bulk string comes back without its closing CRLF having been read. */
  lemma ParseBulkOf(s: bytes, rest: bytes)
    requires |s| <= MAX_BULK
    ensures ParseBulk(FormatInt(|s|) + CRLF + (s + CRLF + rest))
            == Parsed(BulkString(s), if s == [] then CRLF + rest else rest)
  {
    var body := s + CRLF + rest;
    ParseLengthOf(|s|, body);
    assert body[..|s|] == s && body[|s| + 2..] == rest;
    assert s == [] ==> body == CRLF + rest;
  }

  /** Splits an encoding into its type byte and what follows. */
  lemma HeaderThen(tag: byte, text: bytes, body: bytes)
    ensures var s := Header(tag, text) + body; s[0] == tag && s[1..] == text + CRLF + body
  {
  }

  predicate IsArray(v: Value) {
    v.Array? || v.NullArray?
  }

  lemma ParseLineOf(tag: byte, text: bytes, rest: bytes, depth: nat)
    requires tag != ARRAY
    ensures ParseValue(Header(tag, text) + rest, depth) == ParseScalar(tag, text + CRLF + rest)
  {
    HeaderThen(tag, text, rest);
  }

  lemma ParseScalarOf(v: Value, rest: bytes, depth: nat)
    requires !IsArray(v) && Sendable(v, 0)
    ensures ParseValue(Encode(v) + rest, depth)
            == Parsed(v, if v.BulkString? && v.str == [] then CRLF + rest else rest)
  {
    match v
    case SimpleString(t) => ParseLineOf(SIMPLE, t, rest, depth); ParseTextOf(t, rest);
    case Error(t) => ParseLineOf(ERROR, t, rest, depth); ParseTextOf(t, rest);
    case Integer(i) => ParseLineOf(INTEGER, FormatInt(i), rest, depth); ParseIntegerOf(i, rest);
    case NullBulk => ParseLineOf(BULK, FormatInt(-1), rest, depth); ParseLengthOf(-1, rest);
    case BulkString(t) => ParseBulkStringOf(t, rest, depth);
  }

  lemma ParseBulkStringOf(t: bytes, rest: bytes, depth: nat)
    requires |t| <= MAX_BULK
    ensures ParseValue(Encode(BulkString(t)) + rest, depth)
            == Parsed(BulkString(t), if t == [] then CRLF + rest else rest)
  {
    var body := t + CRLF + rest;
    assert Encode(BulkString(t)) + rest == Header(BULK, FormatInt(|t|)) + body;
    ParseLineOf(BULK, FormatInt(|t|), body, depth);
    ParseBulkOf(t, rest);
  }

  /** An array is read as its length line, then its elements. */
  lemma ParseArrayOf(es: seq<Value>, rest: bytes, depth: nat)
    requires depth < MAX_DEPTH && |es| <= MAX_ARRAY
    ensures ParseValue(Encode(Array(es)) + rest, depth)
            == match ParseMany(EncodeAll(es) + rest, |es|, depth + 1)
               case Parsed(vs, rest') => Parsed(Array(vs), rest')
               case Failed(_, leak) => Failed(InvalidFormat, leak)
               case Panicked => Panicked
  {
    var body := EncodeAll(es) + rest;
    assert Encode(Array(es)) + rest == Header(ARRAY, FormatInt(|es|)) + body;
    HeaderThen(ARRAY, FormatInt(|es|), body);
    ParseLengthOf(|es|, body);
  }

  /** The round trip: one value, followed by anything. */
  lemma {:induction false} ParseEncode(v: Value, rest: bytes, depth: nat)
    requires depth <= MAX_DEPTH && Sendable(v, MAX_DEPTH - depth) && NoEmptyBulk(v)
    ensures ParseValue(Encode(v) + rest, depth) == Parsed(v, rest)
    decreases v, 1
  {
    match v
    case Array(es) =>
      ParseArrayOf(es, rest, depth);
      ParseEncodeAll(es, rest, depth + 1);
    case NullArray =>
      HeaderThen(ARRAY, FormatInt(-1), rest);
      ParseLengthOf(-1, rest);
    case _ =>
      ParseScalarOf(v, rest, depth);
  }

  /** The round trip on streams: any number of values, one after the other. */
  lemma {:induction false} ParseEncodeAll(vs: seq<Value>, rest: bytes, depth: nat)
    requires depth <= MAX_DEPTH && AllSendable(vs, MAX_DEPTH - depth) && NoneEmpty(vs)
    ensures ParseMany(EncodeAll(vs) + rest, |vs|, depth) == Parsed(vs, rest)
    decreases vs, 0
  {
    if vs == [] {
      assert EncodeAll(vs) + rest == rest;
    } else {
      var tail := EncodeAll(vs[1..]) + rest;
      assert EncodeAll(vs) + rest == Encode(vs[0]) + tail;
      ParseEncode(vs[0], tail, depth);
      ParseEncodeAll(vs[1..], rest, depth);
      assert vs == [vs[0]] + vs[1..];
    }
  }

  /** The read of a value that contains an empty bulk string either fails or leaves a
      CRLF in front of what follows. */
  ghost predicate Stumbles<T>(p: Parse<T>, rest: bytes) {
    p.Failed? || (p.Parsed? && p.rest == CRLF + rest)
  }

  lemma {:induction false} EmptyBulkStumbles(v: Value, rest: bytes, depth: nat)
    requires depth <= MAX_DEPTH && Sendable(v, MAX_DEPTH - depth) && !NoEmptyBulk(v)
    ensures Stumbles(ParseValue(Encode(v) + rest, depth), rest)
    decreases v, 1
  {
    match v
    case Array(es) =>
      ParseArrayOf(es, rest, depth);
      EmptyBulkStumblesAll(es, rest, depth + 1);
    case _ =>
      ParseScalarOf(v, rest, depth);
  }

  lemma {:induction false} EmptyBulkStumblesAll(vs: seq<Value>, rest: bytes, depth: nat)
    requires depth <= MAX_DEPTH && AllSendable(vs, MAX_DEPTH - depth) && !NoneEmpty(vs)
    ensures Stumbles(ParseMany(EncodeAll(vs) + rest, |vs|, depth), rest)
    decreases vs, 0
  {
    var tail := EncodeAll(vs[1..]) + rest;
    assert EncodeAll(vs) + rest == Encode(vs[0]) + tail;
    if NoEmptyBulk(vs[0]) {
      ParseEncode(vs[0], tail, depth);
      EmptyBulkStumblesAll(vs[1..], rest, depth);
    } else {
      EmptyBulkStumbles(vs[0], tail, depth);
      if |vs| == 1 {
        assert tail == rest;
      } else {
        CRLFIsNoValue(tail, depth);
      }
    }
  }

  lemma CRLFIsNoValue(rest: bytes, depth: nat)
    ensures ParseValue(CRLF + rest, depth) == Failed(UnknownType, 0)
  {
    assert (CRLF + rest)[0] == CR;
  }

  lemma CRLFIsNoStream(rest: bytes, n: nat, depth: nat)
    requires n > 0
    ensures ParseMany(CRLF + rest, n, depth) == Failed(UnknownType, 0)
  {
    CRLFIsNoValue(rest, depth);
  }

  /** The exact domain of the round trip: a stream of sendable values is read back, leaving
      exactly what follows it, if and only if no value contains an empty bulk string. */
  lemma StreamRoundTrip(vs: seq<Value>, rest: bytes)
    requires AllSendable(vs, MAX_DEPTH)
    ensures ParseMany(EncodeAll(vs) + rest, |vs|, 0) == Parsed(vs, rest) <==> NoneEmpty(vs)
  {
    if NoneEmpty(vs) {
      ParseEncodeAll(vs, rest, 0);
    } else {
      EmptyBulkStumblesAll(vs, rest, 0);
      assert |CRLF + rest| != |rest|;
    }
  }

  /** Two streams of equally many values that share their bytes share their values: the
      encoding is injective, and no encoding is a proper prefix of another. */
  lemma EncodingIsPrefixFree(vs: seq<Value>, rest: bytes, ws: seq<Value>, rest': bytes)
    requires AllSendable(vs, MAX_DEPTH) && NoneEmpty(vs)
    requires AllSendable(ws, MAX_DEPTH) && NoneEmpty(ws)
    requires |vs| == |ws| && EncodeAll(vs) + rest == EncodeAll(ws) + rest'
    ensures vs == ws && rest == rest'
  {
    ParseEncodeAll(vs, rest, 0);
    ParseEncodeAll(ws, rest', 0);
  }

  // ---------- Soundness ----------

  lemma ScalarIsSendable(tag: byte, s: bytes)
    requires ParseScalar(tag, s).Parsed?
    ensures Sendable(ParseScalar(tag, s).value, 0)
  {
    ReadLineSplits(s);
    match ReadLine(s)
    case NoLine =>
    case Line(t, rest) => assert |t| >= 2 ==> t[..|t| - 2] <= t[..|t| - 1];
  }

  lemma SendableScalarAnywhere(v: Value, budget: nat)
    requires Sendable(v, 0)
    ensures Sendable(v, budget)
  {
  }

  /** Whatever the parser returns is a value the protocol can carry, nested no deeper
      than the limit allows. */
  lemma {:induction false} ParsedIsSendable(s: bytes, depth: nat)
    requires depth <= MAX_DEPTH && ParseValue(s, depth).Parsed?
    ensures Sendable(ParseValue(s, depth).value, MAX_DEPTH - depth)
    decreases |s|, 0
  {
    if s[0] == ARRAY {
      var len := ParseLength(s[1..]);
      if len.value >= 0 {
        ManyAreSendable(len.rest, len.value, depth + 1);
      }
    } else {
      ScalarIsSendable(s[0], s[1..]);
      SendableScalarAnywhere(ParseValue(s, depth).value, MAX_DEPTH - depth);
    }
  }

  lemma {:induction false} ManyAreSendable(s: bytes, n: nat, depth: nat)
    requires depth <= MAX_DEPTH && ParseMany(s, n, depth).Parsed?
    ensures AllSendable(ParseMany(s, n, depth).value, MAX_DEPTH - depth)
    decreases |s|, n
  {
    if n > 0 {
      var first := ParseValue(s, depth);
      ParsedIsSendable(s, depth);
      ManyAreSendable(first.rest, n - 1, depth);
      var vs := ParseMany(first.rest, n - 1, depth).value;
      assert ([first.value] + vs)[1..] == vs;
    }
  }

  /** Parsing normalises: what was read once, from any input, survives being sent again
      if and only if it contains no empty bulk string. */
  lemma ParsedSurvivesResend(s: bytes, rest: bytes)
    requires ParseValue(s, 0).Parsed?
    ensures var v := ParseValue(s, 0).value;
            ParseValue(Encode(v) + rest, 0) == Parsed(v, rest) <==> NoEmptyBulk(v)
  {
    ParsedIsSendable(s, 0);
    var v := ParseValue(s, 0).value;
    if NoEmptyBulk(v) {
      ParseEncode(v, rest, 0);
    } else {
      EmptyBulkStumbles(v, rest, 0);
      assert |CRLF + rest| != |rest|;
    }
  }

  // ---------- What a read leaves ----------

  lemma {:induction false} SuffixIsDrop(b: bytes, a: bytes)
    requires IsSuffix(b, a)
    ensures |b| <= |a| && b == a[|a| - |b|..]
  {
    if b != a {
      SuffixIsDrop(b, a[1..]);
    }
  }

  lemma {:induction false} DropIsSuffix(a: bytes, n: nat)
    requires n <= |a|
    ensures IsSuffix(a[n..], a)
  {
    if n > 0 {
      DropIsSuffix(a[1..], n - 1);
      assert a[n..] == a[1..][n - 1..];
    }
  }

  lemma {:induction false} SuffixOfSuffix(c: bytes, b: bytes, a: bytes)
    requires IsSuffix(c, b) && IsSuffix(b, a)
    ensures IsSuffix(c, a)
    decreases |a|
  {
    if b != a {
      SuffixOfSuffix(c, b, a[1..]);
    }
  }

  lemma LineLeavesSuffix(s: bytes)
    ensures ReadLine(s).Line? ==> IsSuffix(ReadLine(s).rest, s)
    ensures IsSuffix([], s)
  {
    ReadLineSplits(s);
    DropIsSuffix(s, |s|);
    assert s[|s|..] == [];
    if ReadLine(s).Line? {
      var l := ReadLine(s);
      DropIsSuffix(s, |l.text|);
      assert l.rest == s[|l.text|..];
    }
  }

  lemma ScalarLeavesSuffix(tag: byte, s: bytes)
    ensures ParseScalar(tag, s).Parsed? ==> IsSuffix(ParseScalar(tag, s).rest, s)
  {
    LineLeavesSuffix(s);
    if tag == BULK && ParseBulk(s).Parsed? {
      var body, n := ParseLength(s).rest, ParseLength(s).value;
      if n > 0 {
        DropIsSuffix(body, n + 2);
        SuffixOfSuffix(body[n + 2..], body, s);
      }
    }
  }

  /** A successful read consumes a non-empty beginning of the input and leaves the rest. */
  lemma {:induction false} ParseLeavesSuffix(s: bytes, depth: nat)
    requires ParseValue(s, depth).Parsed?
    ensures var rest := ParseValue(s, depth).rest;
            IsSuffix(rest, s) && |rest| < |s| && rest == s[|s| - |rest|..]
    decreases |s|, 0
  {
    var u := s[1..];
    DropIsSuffix(s, 1);
    if s[0] != ARRAY {
      ScalarLeavesSuffix(s[0], u);
    } else {
      LineLeavesSuffix(u);
      var len := ParseLength(u);
      if len.value >= 0 {
        ParseManyLeavesSuffix(len.rest, len.value, depth + 1);
        SuffixOfSuffix(ParseArray(u, depth).rest, len.rest, u);
      }
    }
    SuffixOfSuffix(ParseValue(s, depth).rest, u, s);
    SuffixIsDrop(ParseValue(s, depth).rest, s);
  }

  lemma {:induction false} ParseManyLeavesSuffix(s: bytes, n: nat, depth: nat)
    requires ParseMany(s, n, depth).Parsed?
    ensures IsSuffix(ParseMany(s, n, depth).rest, s)
    decreases |s|, n
  {
    if n > 0 {
      var first := ParseValue(s, depth);
      ParseLeavesSuffix(s, depth);
      ParseManyLeavesSuffix(first.rest, n - 1, depth);
      SuffixOfSuffix(ParseMany(s, n, depth).rest, first.rest, s);
    }
  }

  // ---------- Cut-off input ----------

  lemma Regrouped(cut: bytes, rest: bytes, t: bytes)
    ensures cut + [LF] + rest + t == cut + [LF] + (rest + t)
  {
  }

  lemma ReadLineExtends(s: bytes, t: bytes)
    requires ReadLine(s).Line?
    ensures ReadLine(s + t) == Line(ReadLine(s).text, ReadLine(s).rest + t)
  {
    ReadLineSplits(s);
    var text, rest := ReadLine(s).text, ReadLine(s).rest;
    var cut := text[..|text| - 1];
    assert text == cut + [LF];
    Regrouped(cut, rest, t);
    ReadLineOf(cut, rest + t);
  }

  /** Bytes that arrive later change neither what was read nor that the read panicked. */
  ghost predicate Extends<T>(p: Parse<T>, q: Parse<T>, t: bytes) {
    && (p.Parsed? ==> q == Parsed(p.value, p.rest + t))
    && (p.Panicked? ==> q.Panicked?)
  }

  lemma LengthExtends(s: bytes, t: bytes)
    ensures Extends(ParseLength(s), ParseLength(s + t), t)
  {
    if ReadLine(s).Line? {
      ReadLineExtends(s, t);
    }
  }

  lemma ScalarExtends(tag: byte, s: bytes, t: bytes)
    ensures Extends(ParseScalar(tag, s), ParseScalar(tag, s + t), t)
  {
    if tag == BULK {
      LengthExtends(s, t);
      var len := ParseLength(s);
      if len.Parsed? && 0 < len.value && len.value + 2 <= |len.rest| {
        var body, n := len.rest, len.value;
        assert (body + t)[..n] == body[..n];
        assert (body + t)[n + 2..] == body[n + 2..] + t;
      }
    } else if ReadLine(s).Line? {
      ReadLineExtends(s, t);
    }
  }

  lemma {:induction false} ParseExtends(s: bytes, t: bytes, depth: nat)
    ensures Extends(ParseValue(s, depth), ParseValue(s + t, depth), t)
    decreases |s|, 0
  {
    if s != [] {
      var u := s[1..];
      assert (s + t)[0] == s[0] && (s + t)[1..] == u + t;
      if s[0] != ARRAY {
        ScalarExtends(s[0], u, t);
      } else {
        assert ParseValue(s, depth) == ParseArray(u, depth) && ParseValue(s + t, depth) == ParseArray(u + t, depth);
        ArrayExtends(u, t, depth);
      }
    }
  }

  lemma {:induction false} ArrayExtends(s: bytes, t: bytes, depth: nat)
    ensures Extends(ParseArray(s, depth), ParseArray(s + t, depth), t)
    decreases |s|, 0
  {
    if depth + 1 > MAX_DEPTH {
      return;
    }
    LengthExtends(s, t);
    match ParseLength(s)
    case Failed(_, _) =>
    case Panicked =>
    case Parsed(n, body) =>
      if 0 <= n <= MAX_ARRAY {
        ParseManyExtends(body, t, n, depth + 1);
      }
  }

  lemma {:induction false} ParseManyExtends(s: bytes, t: bytes, n: nat, depth: nat)
    ensures Extends(ParseMany(s, n, depth), ParseMany(s + t, n, depth), t)
    decreases |s|, n
  {
    if n > 0 {
      ParseExtends(s, t, depth);
      var first := ParseValue(s, depth);
      if first.Parsed? {
        ParseManyExtends(first.rest, t, n - 1, depth);
      }
    }
  }

  /** A value cut short is never taken for another value, and never panics. */
  lemma CutValueFails(v: Value, cut: bytes, depth: nat)
    requires depth <= MAX_DEPTH && Sendable(v, MAX_DEPTH - depth) && NoEmptyBulk(v)
    requires cut < Encode(v)
    ensures ParseValue(cut, depth).Failed?
  {
    var t := Encode(v)[|cut|..];
    assert Encode(v) == cut + t == Encode(v) + [];
    ParseExtends(cut, t, depth);
    ParseEncode(v, [], depth);
  }
}
