/** Command names, and the two tables of `internal/server/transaction.go` that say which
    commands write and which keys a command names. */
module Commands {
  import opened Bytes
  import Resp

  datatype Name =
    // write commands
    | SET | DEL | MSET | MSETNX | APPEND
    | HSET | HDEL | LPUSH | RPUSH | LPOP | RPOP | SADD | SREM | ZADD | ZREM
    // read commands that name their key first, and MGET
    | GET | TTL | EXISTS | STRLEN | HGET | HLEN | HEXISTS | HKEYS | HVALS | LLEN
    | SMEMBERS | SISMEMBER | SCARD | ZRANGE | ZCARD | ZSCORE | MGET
    // transactions and authentication
    | MULTI | EXEC | DISCARD | WATCH | UNWATCH | AUTH
    // anything else, by its upper-case text
    | Other(text: bytes)

  function NameOfText(t: string, b: bytes): Name {
    match t
    case "SET" => SET
    case "DEL" => DEL
    case "MSET" => MSET
    case "MSETNX" => MSETNX
    case "APPEND" => APPEND
    case "HSET" => HSET
    case "HDEL" => HDEL
    case "LPUSH" => LPUSH
    case "RPUSH" => RPUSH
    case "LPOP" => LPOP
    case "RPOP" => RPOP
    case "SADD" => SADD
    case "SREM" => SREM
    case "ZADD" => ZADD
    case "ZREM" => ZREM
    case "GET" => GET
    case "TTL" => TTL
    case "EXISTS" => EXISTS
    case "STRLEN" => STRLEN
    case "HGET" => HGET
    case "HLEN" => HLEN
    case "HEXISTS" => HEXISTS
    case "HKEYS" => HKEYS
    case "HVALS" => HVALS
    case "LLEN" => LLEN
    case "SMEMBERS" => SMEMBERS
    case "SISMEMBER" => SISMEMBER
    case "SCARD" => SCARD
    case "ZRANGE" => ZRANGE
    case "ZCARD" => ZCARD
    case "ZSCORE" => ZSCORE
    case "MGET" => MGET
    case "MULTI" => MULTI
    case "EXEC" => EXEC
    case "DISCARD" => DISCARD
    case "WATCH" => WATCH
    case "UNWATCH" => UNWATCH
    case "AUTH" => AUTH
    case _ => Other(b)
  }

  /** The command a name stands for; names are compared in upper case. */
  function NameOf(b: bytes): Name {
    NameOfText(Text(ToUpper(b)), ToUpper(b))
  }

  predicate IsWrite(n: Name) {
    match n
    case SET | DEL | MSET | MSETNX | APPEND => true
    case HSET | HDEL | LPUSH | RPUSH | LPOP | RPOP | SADD | SREM | ZADD | ZREM => true
    case _ => false
  }

  function WriteText(n: Name): string
    requires IsWrite(n)
  {
    match n
    case SET => "SET"
    case DEL => "DEL"
    case MSET => "MSET"
    case MSETNX => "MSETNX"
    case APPEND => "APPEND"
    case HSET => "HSET"
    case HDEL => "HDEL"
    case LPUSH => "LPUSH"
    case RPUSH => "RPUSH"
    case LPOP => "LPOP"
    case RPOP => "RPOP"
    case SADD => "SADD"
    case SREM => "SREM"
    case ZADD => "ZADD"
    case ZREM => "ZREM"
  }

  /** The name under which a write command is logged is read back as that command. */
  lemma WriteNameRoundTrip(n: Name)
    requires IsWrite(n)
    ensures IsLatin(WriteText(n)) && 0 < |WriteText(n)| < 10
    ensures NameOf(Ascii(WriteText(n))) == n
  {
    var t := WriteText(n);
    assert HasUpperOnly(t);
    ToUpperOfUpper(t);
    TextOfAscii(t);
  }

  /** `extractKeys`: what a command names, as the watch mechanism sees it. */
  function ExtractKeys(n: Name, args: seq<bytes>): seq<bytes> {
    match n
    case MGET | MSET | MSETNX => Evens(args)
    case MULTI | EXEC | DISCARD | WATCH | UNWATCH | AUTH | Other(_) => []
    case _ => if |args| > 0 then [args[0]] else []
  }

  /** The arguments at even positions. */
  function Evens(args: seq<bytes>): seq<bytes> {
    if args == [] then []
    else if |args| == 1 then [args[0]]
    else [args[0]] + Evens(args[2..])
  }

  // ---------- Commands on the wire ----------

  /** The `Str` field of a value. */
  function StrOf(v: Resp.Value): bytes {
    match v
    case SimpleString(s) => s
    case Error(s) => s
    case BulkString(s) => s
    case _ => []
  }

  /** The arguments of a command: its bulk strings, null ones read as empty. */
  function ArgsOf(vs: seq<Resp.Value>): seq<bytes> {
    if vs == [] then []
    else if vs[0].BulkString? || vs[0].NullBulk? then [StrOf(vs[0])] + ArgsOf(vs[1..])
    else ArgsOf(vs[1..])
  }

  datatype Command = Command(name: Name, args: seq<bytes>)

  predicate IsCommand(v: Resp.Value) {
    v.Array? && v.elems != []
  }

  /** `parseCmd`. */
  function ParseCommand(v: Resp.Value): Command
    requires IsCommand(v)
  {
    Command(NameOf(StrOf(v.elems[0])), ArgsOf(v.elems[1..]))
  }

  function Bulks(args: seq<bytes>): (vs: seq<Resp.Value>)
    ensures |vs| == |args|
  {
    if args == [] then [] else [Resp.BulkString(args[0])] + Bulks(args[1..])
  }

  /** A write command as `LogCommand` sends it to the append-only file. */
  function LogEntry(c: Command): Resp.Value
    requires IsWrite(c.name)
  {
    WriteNameRoundTrip(c.name);
    Resp.Array([Resp.BulkString(Ascii(WriteText(c.name)))] + Bulks(c.args))
  }

  lemma {:induction false} ArgsOfBulks(args: seq<bytes>)
    ensures ArgsOf(Bulks(args)) == args
  {
    if args != [] {
      ArgsOfBulks(args[1..]);
      assert Bulks(args)[1..] == Bulks(args[1..]);
    }
  }

  lemma ParseLogEntry(c: Command)
    requires IsWrite(c.name)
    ensures IsCommand(LogEntry(c)) && ParseCommand(LogEntry(c)) == c
  {
    WriteNameRoundTrip(c.name);
    ArgsOfBulks(c.args);
    assert LogEntry(c).elems[1..] == Bulks(c.args);
  }

  // ---------- The names, letter by letter ----------

  /** The string commands that write. */
  lemma StringWriteNames(b: bytes)
    ensures NameOf(b) == SET <==> Text(ToUpper(b)) == "SET"
    ensures NameOf(b) == DEL <==> Text(ToUpper(b)) == "DEL"
    ensures NameOf(b) == MSET <==> Text(ToUpper(b)) == "MSET"
    ensures NameOf(b) == MSETNX <==> Text(ToUpper(b)) == "MSETNX"
    ensures NameOf(b) == APPEND <==> Text(ToUpper(b)) == "APPEND"
  {
  }

  /** The string commands that read. */
  lemma StringReadNames(b: bytes)
    ensures NameOf(b) == GET <==> Text(ToUpper(b)) == "GET"
    ensures NameOf(b) == TTL <==> Text(ToUpper(b)) == "TTL"
    ensures NameOf(b) == EXISTS <==> Text(ToUpper(b)) == "EXISTS"
    ensures NameOf(b) == STRLEN <==> Text(ToUpper(b)) == "STRLEN"
    ensures NameOf(b) == MGET <==> Text(ToUpper(b)) == "MGET"
  {
  }

  /** The commands on hashes, the first two of which write. */
  lemma HashNames(b: bytes)
    ensures NameOf(b) == HSET <==> Text(ToUpper(b)) == "HSET"
    ensures NameOf(b) == HDEL <==> Text(ToUpper(b)) == "HDEL"
    ensures NameOf(b) == HGET <==> Text(ToUpper(b)) == "HGET"
    ensures NameOf(b) == HLEN <==> Text(ToUpper(b)) == "HLEN"
  {
  }

  /** The other commands on hashes, and LLEN. */
  lemma MoreHashNames(b: bytes)
    ensures NameOf(b) == HEXISTS <==> Text(ToUpper(b)) == "HEXISTS"
    ensures NameOf(b) == HKEYS <==> Text(ToUpper(b)) == "HKEYS"
    ensures NameOf(b) == HVALS <==> Text(ToUpper(b)) == "HVALS"
    ensures NameOf(b) == LLEN <==> Text(ToUpper(b)) == "LLEN"
  {
  }

  /** The commands on lists that write. */
  lemma ListNames(b: bytes)
    ensures NameOf(b) == LPUSH <==> Text(ToUpper(b)) == "LPUSH"
    ensures NameOf(b) == RPUSH <==> Text(ToUpper(b)) == "RPUSH"
    ensures NameOf(b) == LPOP <==> Text(ToUpper(b)) == "LPOP"
    ensures NameOf(b) == RPOP <==> Text(ToUpper(b)) == "RPOP"
  {
  }

  /** The commands on sets, the first two of which write. */
  lemma SetNames(b: bytes)
    ensures NameOf(b) == SADD <==> Text(ToUpper(b)) == "SADD"
    ensures NameOf(b) == SREM <==> Text(ToUpper(b)) == "SREM"
    ensures NameOf(b) == SMEMBERS <==> Text(ToUpper(b)) == "SMEMBERS"
    ensures NameOf(b) == SISMEMBER <==> Text(ToUpper(b)) == "SISMEMBER"
    ensures NameOf(b) == SCARD <==> Text(ToUpper(b)) == "SCARD"
  {
  }

  /** The commands on sorted sets, the first two of which write. */
  lemma SortedSetNames(b: bytes)
    ensures NameOf(b) == ZADD <==> Text(ToUpper(b)) == "ZADD"
    ensures NameOf(b) == ZREM <==> Text(ToUpper(b)) == "ZREM"
    ensures NameOf(b) == ZRANGE <==> Text(ToUpper(b)) == "ZRANGE"
    ensures NameOf(b) == ZCARD <==> Text(ToUpper(b)) == "ZCARD"
    ensures NameOf(b) == ZSCORE <==> Text(ToUpper(b)) == "ZSCORE"
  {
  }

  /** The commands of transactions. */
  lemma TxNames(b: bytes)
    ensures NameOf(b) == MULTI <==> Text(ToUpper(b)) == "MULTI"
    ensures NameOf(b) == EXEC <==> Text(ToUpper(b)) == "EXEC"
    ensures NameOf(b) == DISCARD <==> Text(ToUpper(b)) == "DISCARD"
  {
  }

  /** The commands of the watch mechanism, and AUTH. */
  lemma WatchNames(b: bytes)
    ensures NameOf(b) == WATCH <==> Text(ToUpper(b)) == "WATCH"
    ensures NameOf(b) == UNWATCH <==> Text(ToUpper(b)) == "UNWATCH"
    ensures NameOf(b) == AUTH <==> Text(ToUpper(b)) == "AUTH"
  {
  }

  /** Whatever else is sent stands for no command. */
  lemma OtherNames(b: bytes)
    ensures NameOf(b).Other? ==> NameOf(b).text == ToUpper(b)
  {
  }

  // ---------- The arguments, one by one ----------

  /** Of what follows the name, the bulk strings are the arguments, in order; a null one
      counts as empty, and anything else is passed over. */
  lemma ArgumentByArgument(v: Resp.Value, vs: seq<Resp.Value>)
    ensures ArgsOf([]) == []
    ensures v.BulkString? ==> ArgsOf([v] + vs) == [v.str] + ArgsOf(vs)
    ensures v.NullBulk? ==> ArgsOf([v] + vs) == [[]] + ArgsOf(vs)
    ensures !v.BulkString? && !v.NullBulk? ==> ArgsOf([v] + vs) == ArgsOf(vs)
  {
    assert ([v] + vs)[1..] == vs;
  }

  /** A command goes by the text of its first element, whatever kind of text that is; one
      without a text stands for no command. */
  lemma NameByFirst(v: Resp.Value, vs: seq<Resp.Value>)
    ensures var c := ParseCommand(Resp.Array([v] + vs));
            && c.args == ArgsOf(vs)
            && c.name == NameOf(if v.SimpleString? || v.Error? || v.BulkString? then v.str else [])
  {
    assert ([v] + vs)[1..] == vs;
  }
}
