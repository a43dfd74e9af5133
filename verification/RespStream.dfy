/** The parser and the encoder of `internal/server/resp.go` in their own form: a parser
    object that advances a reader and counts nesting, and an encoder that appends to a
    string builder.  Both are tied to the functions of module `Resp`. */
module RespStream {
  import opened Bytes
  import opened Resp

  datatype Outcome = Done(value: Value) | Fail(failure: Failure) | Panic

  /** `p` is what a read promised, `r` what it returned, leaving `input` and `depth`. */
  ghost predicate Delivers(p: Parse<Value>, r: Outcome, input: bytes, depth: nat, oldDepth: nat) {
    match p
    case Parsed(v, rest) => r == Done(v) && input == rest && depth == oldDepth
    case Failed(f, leak) => r == Fail(f) && depth == oldDepth + leak
    case Panicked => r == Panic
  }

  ghost function Prepend(vs: seq<Value>, p: Parse<seq<Value>>): Parse<seq<Value>> {
    match p
    case Parsed(ws, rest) => Parsed(vs + ws, rest)
    case _ => p
  }

  lemma PrependNothing(p: Parse<seq<Value>>)
    ensures Prepend([], p) == p
  {
    if p.Parsed? {
      assert [] + p.value == p.value;
    }
  }

  /** One turn of the element loop: `read` has been read, `n` elements are to come. */
  lemma ElementStep(read: seq<Value>, s: bytes, n: nat, depth: nat)
    requires n > 0
    ensures var first := ParseValue(s, depth);
            && (first.Parsed? ==> Prepend(read, ParseMany(s, n, depth))
                                  == Prepend(read + [first.value], ParseMany(first.rest, n - 1, depth)))
            && (first.Failed? ==> Prepend(read, ParseMany(s, n, depth)) == Failed(first.failure, first.leak))
            && (first.Panicked? ==> Prepend(read, ParseMany(s, n, depth)) == Panicked)
  {
    var first := ParseValue(s, depth);
    if first.Parsed? {
      var tail := ParseMany(first.rest, n - 1, depth);
      if tail.Parsed? {
        assert read + ([first.value] + tail.value) == read + [first.value] + tail.value;
      }
    }
  }

  class RESPParser {
    var input: bytes
    var depth: nat

    constructor (input: bytes)
      ensures this.input == input && depth == 0
    {
      this.input := input;
      depth := 0;
    }

    method Read() returns (r: Outcome)
      modifies this
      ensures Delivers(ParseValue(old(input), old(depth)), r, input, depth, old(depth))
      ensures IsSuffix(input, old(input))
      decreases |input|, 1
    {
      if input == [] {
        return Fail(EndOfInput);
      }
      var b := input[0];
      input := input[1..];
      if b == SIMPLE || b == ERROR {
        r := ReadText(b);
      } else if b == INTEGER {
        r := ReadInteger();
      } else if b == BULK {
        r := ReadBulkString();
      } else if b == ARRAY {
        r := ReadArray();
      } else {
        r := Fail(UnknownType);
      }
    }

    /** `readSimpleString` and `readError`, which differ in the type they return. */
    method ReadText(tag: byte) returns (r: Outcome)
      requires tag == SIMPLE || tag == ERROR
      modifies this
      ensures Delivers(ParseScalar(tag, old(input)), r, input, depth, old(depth))
      ensures IsSuffix(input, old(input))
    {
      LineLeavesSuffix(input);
      match ReadLine(input) {
        case NoLine =>
          input := [];
          return Fail(InvalidFormat);
        case Line(line, rest) =>
          input := rest;
          if |line| < 2 || line[|line| - 2] != CR {
            return Fail(InvalidFormat);
          }
          var text := line[..|line| - 2];
          return Done(if tag == SIMPLE then SimpleString(text) else Error(text));
      }
    }

    method ReadInteger() returns (r: Outcome)
      modifies this
      ensures Delivers(ParseInteger(old(input)), r, input, depth, old(depth))
      ensures IsSuffix(input, old(input))
    {
      LineLeavesSuffix(input);
      match ReadLine(input) {
        case NoLine =>
          input := [];
          return Fail(InvalidFormat);
        case Line(line, rest) =>
          input := rest;
          if |line| < 2 || line[|line| - 2] != CR {
            return Fail(InvalidFormat);
          }
          var val := ParseInt(line[..|line| - 2]);
          return if val.None? then Fail(InvalidFormat) else Done(Integer(val.value));
      }
    }

    method ReadBulkString() returns (r: Outcome)
      modifies this
      ensures Delivers(ParseBulk(old(input)), r, input, depth, old(depth))
      ensures IsSuffix(input, old(input))
    {
      LineLeavesSuffix(input);
      match ReadLine(input) {
        case NoLine =>
          input := [];
          return Fail(InvalidFormat);
        case Line(line, rest) =>
          input := rest;
          if |line| < 2 {
            return Panic;
          }
          var length := ParseInt(line[..|line| - 2]);
          if length.None? {
            return Fail(InvalidFormat);
          }
          var n := length.value;
          if n == -1 {
            return Done(NullBulk);
          }
          if n == 0 {
            return Done(BulkString([]));
          }
          if n > MAX_BULK {
            return Fail(TooLarge);
          }
          if n < -1 {
            return Panic;
          }
          if |input| < n + 2 {
            input := [];
            return Fail(InvalidFormat);
          }
          var data := input[..n + 2];
          input := input[n + 2..];
          DropIsSuffix(rest, n + 2);
          SuffixOfSuffix(input, rest, old(input));
          assert data[..n] == rest[..n];
          return Done(BulkString(data[..n]));
      }
    }

    method ReadArray() returns (r: Outcome)
      modifies this
      ensures Delivers(ParseArray(old(input), old(depth)), r, input, depth, old(depth))
      ensures IsSuffix(input, old(input))
      decreases |input|, 0
    {
      depth := depth + 1;
      if depth > MAX_DEPTH {
        return Fail(TooDeep);
      }
      LineLeavesSuffix(input);
      match ReadLine(input) {
        case NoLine =>
          input := [];
          depth := depth - 1;
          return Fail(InvalidFormat);
        case Line(line, rest) =>
          input := rest;
          if |line| < 2 {
            return Panic;
          }
          var length := ParseInt(line[..|line| - 2]);
          if length.None? {
            depth := depth - 1;
            return Fail(InvalidFormat);
          }
          var n := length.value;
          if n == -1 {
            depth := depth - 1;
            return Done(NullArray);
          }
          if n < -1 || n > MAX_ARRAY {
            return Panic;
          }
          r := ReadElements(n);
          SuffixOfSuffix(input, rest, old(input));
          if r == Panic {
            return;
          }
          depth := depth - 1;
      }
    }

    /** The element loop of `readArray`. */
    method ReadElements(n: nat) returns (r: Outcome)
      modifies this
      ensures match ParseMany(old(input), n, old(depth))
              case Parsed(vs, rest) => r == Done(Array(vs)) && input == rest && depth == old(depth)
              case Failed(_, leak) => r == Fail(InvalidFormat) && depth == old(depth) + leak
              case Panicked => r == Panic
      ensures IsSuffix(input, old(input))
      decreases |input|, 2
    {
      ghost var whole := ParseMany(input, n, depth);
      var elems := new Value[n];
      ghost var read: seq<Value> := [];
      var i := 0;
      PrependNothing(whole);
      while i < n
        invariant 0 <= i <= n && depth == old(depth) && IsSuffix(input, old(input))
        invariant whole == Prepend(read, ParseMany(input, n - i, depth))
        invariant fresh(elems) && elems[..i] == read
      {
        ghost var before := input;
        ElementStep(read, input, n - i, depth);
        var val := Read();
        SuffixOfSuffix(input, before, old(input));
        match val {
          case Fail(_) =>
            return Fail(InvalidFormat);
          case Panic =>
            return Panic;
          case Done(v) =>
            elems[i] := v;
            read := read + [v];
            i := i + 1;
        }
      }
      assert elems[..n] + [] == elems[..];
      r := Done(Array(elems[..]));
    }
  }

  class Builder {
    var out: bytes

    constructor ()
      ensures out == []
    {
      out := [];
    }

    method WriteString(s: bytes)
      modifies this
      ensures out == old(out) + s
    {
      out := out + s;
    }
  }

  lemma {:induction false} EncodeAllAppend(vs: seq<Value>, v: Value)
    ensures EncodeAll(vs + [v]) == EncodeAll(vs) + Encode(v)
  {
    if vs == [] {
      assert EncodeAll([v]) == Encode(v) + EncodeAll([]);
    } else {
      assert (vs + [v])[1..] == vs[1..] + [v];
      EncodeAllAppend(vs[1..], v);
    }
  }

  method EncodeToBuilder(b: Builder, val: Value)
    modifies b
    ensures b.out == old(b.out) + Encode(val)
    decreases val, 1
  {
    match val {
      case SimpleString(s) => WriteLine(b, SIMPLE, s);
      case Error(s) => WriteLine(b, ERROR, s);
      case Integer(i) => WriteLine(b, INTEGER, FormatInt(i));
      case NullBulk => WriteLine(b, BULK, FormatInt(-1));
      case BulkString(s) => WriteBulk(b, s);
      case NullArray => WriteLine(b, ARRAY, FormatInt(-1));
      case Array(es) =>
        WriteLine(b, ARRAY, FormatInt(|es|));
        EncodeElements(b, es);
        assert b.out == old(b.out) + (Header(ARRAY, FormatInt(|es|)) + EncodeAll(es));
    }
  }

  method WriteBulk(b: Builder, s: bytes)
    modifies b
    ensures b.out == old(b.out) + Encode(BulkString(s))
  {
    WriteLine(b, BULK, FormatInt(|s|));
    b.WriteString(s);
    b.WriteString(CRLF);
    assert b.out == old(b.out) + (Header(BULK, FormatInt(|s|)) + s + CRLF);
  }

  /** The element loop of `encodeRESPToBuilder`. */
  method EncodeElements(b: Builder, es: seq<Value>)
    modifies b
    ensures b.out == old(b.out) + EncodeAll(es)
    decreases es, 0
  {
    var i := 0;
    while i < |es|
      invariant 0 <= i <= |es|
      invariant b.out == old(b.out) + EncodeAll(es[..i])
    {
      EncodeToBuilder(b, es[i]);
      EncodeAllAppend(es[..i], es[i]);
      assert es[..i + 1] == es[..i] + [es[i]];
      i := i + 1;
    }
    assert es[..|es|] == es;
  }

  /** A type byte, a text and CRLF. */
  method WriteLine(b: Builder, tag: byte, text: bytes)
    modifies b
    ensures b.out == old(b.out) + Header(tag, text)
  {
    b.WriteString([tag]);
    b.WriteString(text);
    b.WriteString(CRLF);
  }

  method EncodeRESP(val: Value) returns (s: bytes)
    ensures s == Encode(val)
  {
    var b := new Builder();
    EncodeToBuilder(b, val);
    s := b.out;
  }
}
