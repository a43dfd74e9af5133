/** The RESP wire format byte by byte: what is sent for each kind of value, what is logged for
    a command, and how the parser of `internal/server/resp.go` meets every kind of input, its
    limits in numbers. */
module Wire {
  import opened Bytes
  import opened Resp
  import opened Commands

  // ---------- What is sent ----------

  lemma EncodingOfLines(s: bytes, i: int)
    ensures Encode(SimpleString(s)) == Ascii("+") + s + Ascii("\r\n")
    ensures Encode(Resp.Error(s)) == Ascii("-") + s + Ascii("\r\n")
    ensures Encode(Integer(i)) == Ascii(":") + FormatInt(i) + Ascii("\r\n")
  {
    assert Ascii("\r\n") == CRLF;
  }

  lemma EncodingOfBulks(s: bytes)
    ensures Encode(BulkString(s)) == Ascii("$") + FormatInt(|s|) + Ascii("\r\n") + s + Ascii("\r\n")
    ensures Encode(NullBulk) == Ascii("$-1\r\n")
  {
    assert Ascii("\r\n") == CRLF;
    assert FormatInt(-1) == [45, 49];
  }

  lemma ArrayLine(text: bytes)
    ensures Header(ARRAY, text) == Ascii("*") + text + Ascii("\r\n")
  {
    assert Ascii("\r\n") == CRLF;
  }

  /** An array is its length line and then its elements, one after the other. */
  lemma EncodingOfArrays(vs: seq<Value>)
    ensures Encode(Array(vs)) == Ascii("*") + FormatInt(|vs|) + Ascii("\r\n") + EncodeAll(vs)
  {
    ArrayLine(FormatInt(|vs|));
  }

  lemma EncodingOfNullArray()
    ensures Encode(NullArray) == Ascii("*-1\r\n")
  {
    assert Ascii("\r\n") == CRLF;
    assert FormatInt(-1) == [45, 49];
  }

  lemma EncodingOfElements(v: Value, vs: seq<Value>)
    ensures EncodeAll([]) == [] && EncodeAll([v] + vs) == Encode(v) + EncodeAll(vs)
  {
    assert ([v] + vs)[1..] == vs;
  }

  /** An argument in the log. */
  function Sent(arg: bytes): bytes {
    Ascii("$") + FormatInt(|arg|) + Ascii("\r\n") + arg + Ascii("\r\n")
  }

  function AllSent(args: seq<bytes>): bytes {
    if args == [] then [] else Sent(args[0]) + AllSent(args[1..])
  }

  lemma {:induction false} EncodingOfBulkList(args: seq<bytes>)
    ensures EncodeAll(Bulks(args)) == AllSent(args)
  {
    if args != [] {
      EncodingOfBulkList(args[1..]);
      EncodingOfBulks(args[0]);
      EncodingOfElements(BulkString(args[0]), Bulks(args[1..]));
    }
  }

  /** What `LogCommand` writes, whatever the command: how many texts follow, its name, and its
      arguments. */
  lemma LoggedBytes(c: Command)
    requires IsWrite(c.name)
    ensures IsLatin(WriteText(c.name))
    ensures Encode(LogEntry(c))
            == Ascii("*") + FormatInt(1 + |c.args|) + Ascii("\r\n") + (Sent(Ascii(WriteText(c.name))) + AllSent(c.args))
  {
    WriteNameRoundTrip(c.name);
    var name := BulkString(Ascii(WriteText(c.name)));
    EncodingOfBulks(Ascii(WriteText(c.name)));
    EncodingOfBulkList(c.args);
    EncodingOfElements(name, Bulks(c.args));
    EncodingOfArrays([name] + Bulks(c.args));
  }

  // ---------- How input is met ----------

  /** No input, and a first byte that is none of the five types. */
  lemma NoValue(s: bytes, depth: nat)
    ensures ParseValue([], depth) == Failed(EndOfInput, 0)
    ensures s != [] && s[0] !in Ascii("+-:$*") ==> ParseValue(s, depth) == Failed(UnknownType, 0)
  {
    if s != [] && s[0] !in Ascii("+-:$*") {
      var types := Ascii("+-:$*");
      assert types[0] == 43 && types[1] == 45 && types[2] == 58 && types[3] == 36 && types[4] == 42;
    }
  }

  /** A length line is read as its number whatever byte stands before its line feed. */
  lemma LengthOf(n: int, ending: byte, body: bytes)
    requires IsInt64(n) && ending != LF
    ensures ParseLength(FormatInt(n) + [ending, LF] + body) == Parsed(n, body)
  {
    var t := FormatInt(n);
    var line := t + [ending];
    assert t + [ending, LF] + body == line + [LF] + body;
    ReadLineOf(line, body);
    assert (line + [LF])[..|t|] == t;
    ParseIntRoundTrip(n);
  }

  /** What comes of a bulk string, by its length. */
  lemma BulkOutcome(n: int, ending: byte, body: bytes, depth: nat)
    requires IsInt64(n) && ending != LF
    ensures ParseValue(Ascii("$") + (FormatInt(n) + [ending, LF] + body), depth)
            == if n < -1 then Panicked
               else if n == -1 then Parsed(NullBulk, body)
               else if n == 0 then Parsed(BulkString([]), body)
               else if n > 536_870_912 then Failed(TooLarge, 0)
               else if |body| < n + 2 then Failed(InvalidFormat, 0)
               else Parsed(BulkString(body[..n]), body[n + 2..])
  {
    TypeByte("$", FormatInt(n) + [ending, LF] + body);
    LengthOf(n, ending, body);
  }

  lemma TypeByte(type_: string, s: bytes)
    requires |type_| == 1 && IsLatin(type_)
    ensures var all := Ascii(type_) + s; all[0] as int == type_[0] as int && all[1..] == s
  {
  }

  /** What comes of an array, by its depth and its length: 32 levels, and at most as many
      elements as there is address space for. */
  lemma ArrayOutcome(n: int, ending: byte, body: bytes, depth: nat)
    requires IsInt64(n) && ending != LF
    ensures var r := ParseValue(Ascii("*") + (FormatInt(n) + [ending, LF] + body), depth);
            if depth >= 32 then r == Failed(TooDeep, 1)
            else if n < -1 || n > 4_398_046_511_104 then r == Panicked
            else if n == -1 then r == Parsed(NullArray, body)
            else
              match ParseMany(body, n, depth + 1)
              case Parsed(vs, rest) => r == Parsed(Array(vs), rest)
              case Failed(_, leak) => r == Failed(InvalidFormat, leak)
              case Panicked => r == Panicked
  {
    TypeByte("*", FormatInt(n) + [ending, LF] + body);
    LengthOf(n, ending, body);
  }

  /** The elements are read one after the other, and the first that fails ends it. */
  lemma ElementByElement(s: bytes, n: nat, depth: nat)
    ensures ParseMany(s, 0, depth) == Parsed([], s)
    ensures var first, all := ParseValue(s, depth), ParseMany(s, n + 1, depth);
            if first.Failed? then all == Failed(first.failure, first.leak)
            else if first.Panicked? then all == Panicked
            else
              var others := ParseMany(first.rest, n, depth);
              if others.Parsed? then all == Parsed([first.value] + others.value, others.rest) else all == others
  {
  }

  /** A line of text: it must end in CRLF, and what stands before that is the value. */
  lemma LineOutcome(t: bytes, rest: bytes, depth: nat)
    requires LF !in t
    ensures var whole := t != [] && t[|t| - 1] == 13;
            && ParseValue(Ascii("+") + (t + [LF] + rest), depth)
               == (if whole then Parsed(SimpleString(t[..|t| - 1]), rest) else Failed(InvalidFormat, 0))
            && ParseValue(Ascii("-") + (t + [LF] + rest), depth)
               == (if whole then Parsed(Resp.Error(t[..|t| - 1]), rest) else Failed(InvalidFormat, 0))
            && ParseValue(Ascii(":") + (t + [LF] + rest), depth)
               == (if whole && ParseInt(t[..|t| - 1]).Some? then Parsed(Integer(ParseInt(t[..|t| - 1]).value), rest)
                   else Failed(InvalidFormat, 0))
  {
    var line := t + [LF] + rest;
    TypeByte("+", line);
    TypeByte("-", line);
    TypeByte(":", line);
    TextOf(t, rest);
  }

  lemma TextOf(t: bytes, rest: bytes)
    requires LF !in t
    ensures ParseText(t + [LF] + rest)
            == if t != [] && t[|t| - 1] == 13 then Parsed(t[..|t| - 1], rest) else Failed(InvalidFormat, 0)
  {
    ReadLineOf(t, rest);
    if t != [] {
      assert (t + [LF])[..|t| - 1] == t[..|t| - 1];
    }
  }

  /** A length line that is only a line feed panics; input that ends within a line fails. */
  lemma ShortLines(s: bytes, type_: string, depth: nat)
    requires type_ in ["+", "-", ":", "$", "*"] && depth < 32
    ensures type_ in ["$", "*"] ==> ParseValue(Ascii(type_) + ([LF] + s), depth) == Panicked
    ensures LF !in s ==> ParseValue(Ascii(type_) + s, depth) == Failed(InvalidFormat, 0)
  {
    TypeByte(type_, s);
    TypeByte(type_, [LF] + s);
    assert ([LF] + s)[1..] == s;
    ReadLineSplits(s);
  }

  // ---------- Nesting ----------

  function Nested(k: nat): (v: Value) {
    if k == 0 then NullBulk else Array([Nested(k - 1)])
  }

  lemma AroundOne(v: Value, rest: bytes, depth: nat)
    requires depth < 32
    ensures var inner := ParseValue(Encode(v) + rest, depth + 1);
            && (inner.Parsed? ==> ParseValue(Encode(Array([v])) + rest, depth) == Parsed(Array([inner.value]), inner.rest))
            && (inner.Failed? ==> ParseValue(Encode(Array([v])) + rest, depth) == Failed(InvalidFormat, inner.leak))
  {
    EncodingOfElements(v, []);
    assert [v] + [] == [v] && Encode(v) + [] == Encode(v);
    ParseArrayOf([v], rest, depth);
    OneElement(Encode(v) + rest, depth + 1);
  }

  lemma OneElement(s: bytes, depth: nat)
    ensures var first := ParseValue(s, depth);
            && (first.Parsed? ==> ParseMany(s, 1, depth) == Parsed([first.value], first.rest))
            && (first.Failed? ==> ParseMany(s, 1, depth) == Failed(first.failure, first.leak))
  {
    ElementByElement(s, 0, depth);
    if ParseValue(s, depth).Parsed? {
      assert [ParseValue(s, depth).value] + [] == [ParseValue(s, depth).value];
    }
  }

  lemma TooDeepAtOnce(es: seq<Value>, rest: bytes)
    ensures ParseValue(Encode(Array(es)) + rest, 32) == Failed(TooDeep, 1)
  {
    var body := EncodeAll(es) + rest;
    assert Encode(Array(es)) + rest == Header(ARRAY, FormatInt(|es|)) + body;
    HeaderThen(ARRAY, FormatInt(|es|), body);
  }

  /** Of `k` nested arrays at some depth, 32 levels in all are read. */
  function AtMost32(k: nat, v: Value, rest: bytes, depth: nat): Parse<Value> {
    if depth + k <= 32 then Parsed(v, rest) else Failed(if depth == 32 then TooDeep else InvalidFormat, 1)
  }

  lemma NestingStep(k: nat, v: Value, rest: bytes, depth: nat)
    requires depth <= 32
    requires depth < 32 ==> ParseValue(Encode(v) + rest, depth + 1) == AtMost32(k, v, rest, depth + 1)
    ensures ParseValue(Encode(Array([v])) + rest, depth) == AtMost32(k + 1, Array([v]), rest, depth)
  {
    if depth < 32 {
      AroundOne(v, rest, depth);
    } else {
      TooDeepAtOnce([v], rest);
    }
  }

  /** Arrays within arrays: 32 levels are read, one more is not, and then the depth counter
      stays one too high for good. */
  lemma {:induction false} NestingOutcome(k: nat, rest: bytes, depth: nat)
    requires depth <= 32
    ensures ParseValue(Encode(Nested(k)) + rest, depth) == AtMost32(k, Nested(k), rest, depth)
    decreases k
  {
    if k == 0 {
      ParseScalarOf(NullBulk, rest, depth);
    } else {
      if depth < 32 {
        NestingOutcome(k - 1, rest, depth + 1);
      }
      NestingStep(k - 1, Nested(k - 1), rest, depth);
    }
  }
}
