/** The RDB snapshot format of `internal/persistence/rdb.go`, byte by byte, and what loading
    a snapshot, or a cut-off one, restores. */
module Rdb {
  import opened Bytes
  import opened Lru
  import S = Shard

  const MAGIC: bytes := [80, 69, 78, 68, 69, 77]  // "PENDEM"
  const VERSION: byte := 1
  const HEADER_LENGTH: nat := 9

  // ---------- Writing ----------

  function TtlSeconds(item: Item, now: int): int {
    var ttl := S.TimeLeft(item, now);
    S.WholeSeconds(if ttl < 0 then 0 else ttl)
  }

  /** Bytes behind their length; a length that does not fit its field is truncated. */
  function Blob(s: bytes, width: nat): bytes {
    LE(|s|, width) + s
  }

  function EncodeItem(e: Entry, now: int): bytes {
    Blob(e.key, 2) + (Blob(e.item.value, 4) + (LE64(TtlSeconds(e.item, now)) + LE64(e.item.expiration)))
  }

  function EncodeItems(es: seq<Entry>, now: int): bytes {
    if es == [] then [] else EncodeItem(es[0], now) + EncodeItems(es[1..], now)
  }

  datatype Block = Block(shard: nat, items: seq<Entry>)

  function EncodeBlock(b: Block, now: int): bytes {
    LE(b.shard, 2) + LE(|b.items|, 4) + EncodeItems(b.items, now)
  }

  function EncodeBlocks(bs: seq<Block>, now: int): bytes {
    if bs == [] then [] else EncodeBlock(bs[0], now) + EncodeBlocks(bs[1..], now)
  }

  /** Shards without items get no block. */
  function BlocksOf(orders: seq<seq<Entry>>): (bs: seq<Block>)
    ensures forall i | 0 <= i < |bs| :: bs[i].shard < |orders|
  {
    if orders == [] then []
    else
      var n, last := |orders| - 1, orders[|orders| - 1];
      BlocksOf(orders[..n]) + if last == [] then [] else [Block(n, last)]
  }

  function Header(shards: nat): (h: bytes)
    ensures |h| == HEADER_LENGTH
  {
    MAGIC + [VERSION] + LE(shards, 2)
  }

  /** A snapshot.  `orders` gives the unexpired items of every shard in the order in which
      the item maps happened to be visited. */
  function EncodeFile(orders: seq<seq<Entry>>, now: int): bytes {
    Header(|orders|) + EncodeBlocks(BlocksOf(orders), now)
  }

  // ---------- Reading ----------

  datatype Read<+T> = Got(value: T, rest: bytes) | Short

  function ReadBlob(s: bytes, width: nat): (r: Read<bytes>)
    ensures r.Got? ==> |r.rest| <= |s|
  {
    if |s| < width then Short
    else
      var n := LEValue(s[..width]);
      if |s| < width + n then Short else Got(s[width..width + n], s[width + n..])
  }

  /** The remaining time that is stored is read and ignored. */
  function ReadItem(s: bytes): (r: Read<Entry>)
    ensures r.Got? ==> |r.rest| < |s|
  {
    match ReadBlob(s, 2)
    case Short => Short
    case Got(key, s1) =>
      match ReadBlob(s1, 4)
      case Short => Short
      case Got(value, s2) =>
        if |s2| < 16 then Short
        else Got(Entry(key, Item(value, LE64Value(s2[8..16]))), s2[16..])
  }

  function ReadItems(s: bytes, n: nat): (r: Read<seq<Entry>>)
    ensures r.Got? ==> |r.rest| <= |s| && |r.value| == n
  {
    if n == 0 then Got([], s)
    else
      match ReadItem(s)
      case Short => Short
      case Got(e, s1) =>
        match ReadItems(s1, n - 1)
        case Short => Short
        case Got(es, s2) => Got([e] + es, s2)
  }

  function ReadBlock(s: bytes): (r: Read<Block>)
    ensures r.Got? ==> |r.rest| < |s|
  {
    if |s| < 6 then Short
    else
      match ReadItems(s[6..], LEValue(s[2..6]))
      case Short => Short
      case Got(es, rest) => Got(Block(LEValue(s[..2]), es), rest)
  }

  /** The complete blocks of a file, and whether it ended where a block may begin. */
  datatype Loaded = Loaded(blocks: seq<Block>, ok: bool)

  function ReadBlocks(s: bytes): Loaded
    decreases |s|
  {
    if s == [] then Loaded([], true)
    else
      match ReadBlock(s)
      case Short => Loaded([], false)
      case Got(b, rest) =>
        var more := ReadBlocks(rest);
        Loaded([b] + more.blocks, more.ok)
  }

  predicate HasHeader(s: bytes) {
    |s| >= HEADER_LENGTH && s[..6] == MAGIC && s[6] == VERSION
  }

  function ReadFile(s: bytes): Loaded {
    if HasHeader(s) then ReadBlocks(s[HEADER_LENGTH..]) else Loaded([], false)
  }

  /** The first of `n` items, and then the others. */
  lemma FirstItem(s: bytes, n: nat)
    requires n > 0
    ensures match ReadItem(s)
            case Got(e, s1) =>
              (match ReadItems(s1, n - 1)
               case Got(es, rest) => ReadItems(s, n) == Got([e] + es, rest)
               case Short => ReadItems(s, n) == Short)
            case Short => ReadItems(s, n) == Short
  {
  }

  // ---------- Round trip of the bytes ----------

  predicate Small(e: Entry) {
    |e.key| < 0x1_0000 && |e.item.value| < 0x1_0000_0000
  }

  predicate Storable(b: Block) {
    && b.shard < 0x1_0000 && |b.items| < 0x1_0000_0000
    && forall i | 0 <= i < |b.items| :: Small(b.items[i]) && IsInt64(b.items[i].item.expiration)
  }

  lemma ReadBlobOf(s: bytes, width: nat, rest: bytes)
    requires |s| < Pow256(width)
    ensures ReadBlob(Blob(s, width) + rest, width) == Got(s, rest)
  {
    var t := Blob(s, width) + rest;
    LERoundTrip(|s|, width);
    assert t[..width] == LE(|s|, width);
    assert t[width..width + |s|] == s && t[width + |s|..] == rest;
  }

  lemma ReadItemOf(e: Entry, now: int, rest: bytes)
    requires Small(e) && IsInt64(e.item.expiration)
    ensures ReadItem(EncodeItem(e, now) + rest) == Got(e, rest)
  {
    Pow256Values();
    var times := LE64(TtlSeconds(e.item, now)) + LE64(e.item.expiration) + rest;
    var tail := Blob(e.item.value, 4) + times;
    assert EncodeItem(e, now) + rest == Blob(e.key, 2) + tail;
    ReadBlobOf(e.key, 2, tail);
    ReadBlobOf(e.item.value, 4, times);
    LE64RoundTrip(e.item.expiration);
    assert times[8..16] == LE64(e.item.expiration) && times[16..] == rest;
  }

  lemma Associates(a: bytes, b: bytes, c: bytes)
    ensures a + b + c == a + (b + c)
  {
  }

  /** An item, and then the others. */
  lemma ItemBefore(s: bytes, e: Entry, s1: bytes, es: seq<Entry>, rest: bytes)
    requires ReadItem(s) == Got(e, s1) && ReadItems(s1, |es|) == Got(es, rest)
    ensures ReadItems(s, |es| + 1) == Got([e] + es, rest)
  {
  }

  lemma {:induction false} ReadItemsOf(es: seq<Entry>, now: int, rest: bytes)
    requires forall i | 0 <= i < |es| :: Small(es[i]) && IsInt64(es[i].item.expiration)
    ensures ReadItems(EncodeItems(es, now) + rest, |es|) == Got(es, rest)
  {
    if es == [] {
      assert EncodeItems(es, now) + rest == rest;
    } else {
      var first, tail := EncodeItem(es[0], now), EncodeItems(es[1..], now) + rest;
      Associates(first, EncodeItems(es[1..], now), rest);
      ReadItemOf(es[0], now, tail);
      ReadItemsOf(es[1..], now, rest);
      ItemBefore(first + tail, es[0], tail, es[1..], rest);
      assert es == [es[0]] + es[1..];
    }
  }

  lemma ThreeFields(a: bytes, b: bytes, c: bytes, rest: bytes)
    requires |a| == 2 && |b| == 4
    ensures var s := a + b + c + rest; |s| >= 6 && s[..2] == a && s[2..6] == b && s[6..] == c + rest
  {
  }

  lemma ReadBlockOf(b: Block, now: int, rest: bytes)
    requires Storable(b)
    ensures ReadBlock(EncodeBlock(b, now) + rest) == Got(b, rest)
  {
    Pow256Values();
    LERoundTrip(b.shard, 2);
    LERoundTrip(|b.items|, 4);
    ThreeFields(LE(b.shard, 2), LE(|b.items|, 4), EncodeItems(b.items, now), rest);
    ReadItemsOf(b.items, now, rest);
  }

  // ---------- Cut-off files ----------

  ghost predicate Extends<T>(r: Read<T>, q: Read<T>, t: bytes) {
    r.Got? ==> q == Got(r.value, r.rest + t)
  }

  lemma BlobExtends(s: bytes, t: bytes, width: nat)
    ensures Extends(ReadBlob(s, width), ReadBlob(s + t, width), t)
  {
    if |s| >= width {
      assert (s + t)[..width] == s[..width];
      var n := LEValue(s[..width]);
      if |s| >= width + n {
        assert (s + t)[width..width + n] == s[width..width + n];
        assert (s + t)[width + n..] == s[width + n..] + t;
      }
    }
  }

  lemma ItemExtends(s: bytes, t: bytes)
    ensures Extends(ReadItem(s), ReadItem(s + t), t)
  {
    BlobExtends(s, t, 2);
    if ReadBlob(s, 2).Got? {
      var s1 := ReadBlob(s, 2).rest;
      BlobExtends(s1, t, 4);
      if ReadBlob(s1, 4).Got? {
        var s2 := ReadBlob(s1, 4).rest;
        if |s2| >= 16 {
          assert (s2 + t)[8..16] == s2[8..16] && (s2 + t)[16..] == s2[16..] + t;
        }
      }
    }
  }

  lemma ItemBeforeExtends(s: bytes, t: bytes, n: nat, e: Entry, s1: bytes)
    requires n > 0 && ReadItem(s) == Got(e, s1) && ReadItem(s + t) == Got(e, s1 + t)
    requires Extends(ReadItems(s1, n - 1), ReadItems(s1 + t, n - 1), t)
    ensures Extends(ReadItems(s, n), ReadItems(s + t, n), t)
  {
  }

  lemma {:induction false} ItemsExtend(s: bytes, t: bytes, n: nat)
    ensures Extends(ReadItems(s, n), ReadItems(s + t, n), t)
  {
    if n > 0 {
      ItemExtends(s, t);
      if ReadItem(s).Got? {
        var e, s1 := ReadItem(s).value, ReadItem(s).rest;
        ItemsExtend(s1, t, n - 1);
        ItemBeforeExtends(s, t, n, e, s1);
      }
    }
  }

  lemma BlockExtends(s: bytes, t: bytes)
    ensures Extends(ReadBlock(s), ReadBlock(s + t), t)
  {
    if |s| >= 6 {
      assert (s + t)[..2] == s[..2] && (s + t)[2..6] == s[2..6] && (s + t)[6..] == s[6..] + t;
      ItemsExtend(s[6..], t, LEValue(s[2..6]));
    }
  }

  /** A block that was cut short is not read at all. */
  lemma CutBlockIsShort(b: Block, now: int, cut: bytes)
    requires Storable(b) && cut < EncodeBlock(b, now)
    ensures ReadBlock(cut).Short?
  {
    var t := EncodeBlock(b, now)[|cut|..];
    assert EncodeBlock(b, now) == cut + t == EncodeBlock(b, now) + [];
    BlockExtends(cut, t);
    ReadBlockOf(b, now, []);
  }

  lemma EncodeBlocksPrefix(bs: seq<Block>, now: int, k: nat)
    requires 0 < k <= |bs|
    ensures bs[..k] == [bs[0]] + bs[1..][..k - 1]
    ensures EncodeBlocks(bs[..k], now) == EncodeBlock(bs[0], now) + EncodeBlocks(bs[1..][..k - 1], now)
  {
    assert bs[..k][1..] == bs[1..][..k - 1];
  }

  /** The first `k` blocks are whole in `cut`, the next one, if any, is not. */
  ghost predicate CutAfter(bs: seq<Block>, now: int, cut: bytes, k: nat) {
    && k <= |bs|
    && |EncodeBlocks(bs[..k], now)| <= |cut|
    && (k < |bs| ==> |cut| < |EncodeBlocks(bs[..k + 1], now)|)
  }

  lemma CutFirstBlock(bs: seq<Block>, now: int, cut: bytes)
    requires bs != [] && Storable(bs[0])
    requires cut <= EncodeBlocks(bs, now) && |cut| < |EncodeBlock(bs[0], now)|
    ensures ReadBlocks(cut) == Loaded([], cut == []) && CutAfter(bs, now, cut, 0)
  {
    assert cut < EncodeBlock(bs[0], now) by {
      assert EncodeBlocks(bs, now)[..|cut|] == cut;
    }
    CutBlockIsShort(bs[0], now, cut);
    EncodeBlocksPrefix(bs, now, 1);
  }

  lemma {:induction false} CutBlocksLoad(bs: seq<Block>, now: int, cut: bytes) returns (k: nat)
    requires forall i | 0 <= i < |bs| :: Storable(bs[i])
    requires cut <= EncodeBlocks(bs, now)
    ensures CutAfter(bs, now, cut, k)
    ensures ReadBlocks(cut) == Loaded(bs[..k], |cut| == |EncodeBlocks(bs[..k], now)|)
  {
    if bs == [] {
      k := 0;
    } else if |cut| < |EncodeBlock(bs[0], now)| {
      CutFirstBlock(bs, now, cut);
      k := 0;
    } else {
      var first := EncodeBlock(bs[0], now);
      var rest := cut[|first|..];
      assert cut == first + rest && rest <= EncodeBlocks(bs[1..], now);
      ReadBlockOf(bs[0], now, rest);
      var n := CutBlocksLoad(bs[1..], now, rest);
      k := n + 1;
      EncodeBlocksPrefix(bs, now, k);
      if k < |bs| {
        EncodeBlocksPrefix(bs, now, k + 1);
      }
    }
  }

  /** Truncation.  A snapshot cut off at any byte, or not at all: inside the header nothing
      is read, and the load fails; after it, exactly the blocks that are complete are read,
      and the load succeeds if and only if the cut falls on the end of the header or of a
      block. */
  lemma CutFileLoads(orders: seq<seq<Entry>>, now: int, cut: bytes) returns (k: nat)
    requires forall i | 0 <= i < |BlocksOf(orders)| :: Storable(BlocksOf(orders)[i])
    requires cut <= EncodeFile(orders, now)
    ensures |cut| < HEADER_LENGTH ==> k == 0 && ReadFile(cut) == Loaded([], false)
    ensures |cut| >= HEADER_LENGTH ==>
              var bs := BlocksOf(orders);
              && CutAfter(bs, now, cut[HEADER_LENGTH..], k)
              && ReadFile(cut) == Loaded(bs[..k], |cut| == HEADER_LENGTH + |EncodeBlocks(bs[..k], now)|)
  {
    var bs := BlocksOf(orders);
    var body := EncodeBlocks(bs, now);
    k := 0;
    if |cut| >= HEADER_LENGTH {
      var h := Header(|orders|);
      assert cut[..HEADER_LENGTH] == h;
      assert cut[..6] == h[..6] == MAGIC && cut[6] == h[6];
      assert cut[HEADER_LENGTH..] <= body;
      k := CutBlocksLoad(bs, now, cut[HEADER_LENGTH..]);
    }
  }

  lemma {:induction false} BlocksGrow(bs: seq<Block>, now: int, k: nat)
    requires k <= |bs|
    ensures |EncodeBlocks(bs[..k], now)| <= |EncodeBlocks(bs, now)|
  {
    if k > 0 {
      EncodeBlocksPrefix(bs, now, k);
      BlocksGrow(bs[1..], now, k - 1);
    }
  }

  /** Round trip: a whole snapshot is read back block by block. */
  lemma FileRoundTrip(orders: seq<seq<Entry>>, now: int)
    requires forall i | 0 <= i < |BlocksOf(orders)| :: Storable(BlocksOf(orders)[i])
    ensures ReadFile(EncodeFile(orders, now)) == Loaded(BlocksOf(orders), true)
  {
    var bs := BlocksOf(orders);
    var k := CutFileLoads(orders, now, EncodeFile(orders, now));
    BehindHeader(Header(|orders|), EncodeBlocks(bs, now));
    NoneIsCutOff(bs, now, EncodeBlocks(bs, now), k);
  }

  lemma BehindHeader(header: bytes, body: bytes)
    ensures (header + body)[|header|..] == body
  {
  }

  lemma NoneIsCutOff(bs: seq<Block>, now: int, body: bytes, k: nat)
    requires body == EncodeBlocks(bs, now) && CutAfter(bs, now, body, k)
    ensures k == |bs| && bs[..k] == bs
  {
    if k < |bs| {
      BlocksGrow(bs, now, k + 1);
    }
  }

  // ---------- Field widths ----------

  lemma LE64ValueIsInt64(s: bytes)
    requires |s| == 8
    ensures IsInt64(LE64Value(s))
  {
    Pow256Values();
    LEValueBound(s);
  }

  predicate StorableItem(e: Entry) {
    Small(e) && IsInt64(e.item.expiration)
  }

  lemma ReadItemFits(s: bytes)
    requires ReadItem(s).Got?
    ensures StorableItem(ReadItem(s).value)
  {
    Pow256Values();
    LEValueBound(s[..2]);
    var s1 := ReadBlob(s, 2).rest;
    LEValueBound(s1[..4]);
    LE64ValueIsInt64(ReadBlob(s1, 4).rest[8..16]);
  }

  lemma {:induction false} ReadItemsFit(s: bytes, n: nat)
    requires ReadItems(s, n).Got?
    ensures forall i | 0 <= i < n :: StorableItem(ReadItems(s, n).value[i])
  {
    if n > 0 {
      FirstItem(s, n);
      ReadItemFits(s);
      ReadItemsFit(ReadItem(s).rest, n - 1);
    }
  }

  lemma ReadBlockIsStorable(s: bytes)
    requires ReadBlock(s).Got?
    ensures Storable(ReadBlock(s).value)
  {
    Pow256Values();
    LEValueBound(s[..2]);
    LEValueBound(s[2..6]);
    ReadItemsFit(s[6..], LEValue(s[2..6]));
    var es := ReadBlock(s).value.items;
    assert forall i | 0 <= i < |es| :: StorableItem(es[i]);
  }

  ghost predicate AllStorable(bs: seq<Block>) {
    forall i | 0 <= i < |bs| :: Storable(bs[i])
  }

  /** Whatever a file holds, the fields of what is read from it are in range. */
  lemma {:induction false} ReadBlocksAreStorable(s: bytes)
    ensures AllStorable(ReadBlocks(s).blocks)
    decreases |s|
  {
    if s != [] && ReadBlock(s).Got? {
      ReadBlockIsStorable(s);
      ReadBlocksAreStorable(ReadBlock(s).rest);
    }
  }

  /** The exact domain of the format: a snapshot is read back if and only if every shard
      number is below 2^16, every block has fewer than 2^32 items, every deadline is a
      64-bit integer, every key is shorter than 2^16 and every value shorter than 2^32 bytes.
      What is out of range is written truncated. */
  lemma FileRoundTripDomain(orders: seq<seq<Entry>>, now: int)
    ensures ReadFile(EncodeFile(orders, now)) == Loaded(BlocksOf(orders), true) <==> AllStorable(BlocksOf(orders))
  {
    var file := EncodeFile(orders, now);
    if AllStorable(BlocksOf(orders)) {
      FileRoundTrip(orders, now);
    }
    if HasHeader(file) {
      ReadBlocksAreStorable(file[HEADER_LENGTH..]);
    }
  }

  // ---------- The bytes of a snapshot ----------

  // Unsigned integers of 2, 4 and 8 bytes, the lowest byte first.

  function Digit256(n: nat, weight: nat): byte
    requires weight > 0
  {
    (n / weight % 256) as byte
  }

  function U16(n: nat): bytes {
    [Digit256(n, 1), Digit256(n, 0x100)]
  }

  function U32(n: nat): bytes {
    U16(n) + [Digit256(n, 0x1_0000), Digit256(n, 0x100_0000)]
  }

  function U64(n: nat): bytes {
    U32(n) + [Digit256(n, 0x1_0000_0000), Digit256(n, 0x100_0000_0000),
              Digit256(n, 0x1_0000_0000_0000), Digit256(n, 0x100_0000_0000_0000)]
  }

  lemma Weights()
    ensures Pow256(0) == 1 && Pow256(1) == 0x100 && Pow256(2) == 0x1_0000 && Pow256(3) == 0x100_0000
    ensures Pow256(4) == 0x1_0000_0000 && Pow256(5) == 0x100_0000_0000
    ensures Pow256(6) == 0x1_0000_0000_0000 && Pow256(7) == 0x100_0000_0000_0000
  {
    Pow256Values();
    assert Pow256(1) == 0x100 && Pow256(3) == 0x100_0000;
    assert Pow256(5) == 0x100_0000_0000;
    assert Pow256(6) == 0x1_0000_0000_0000;
  }

  /** The fields are written as these. */
  lemma LEIsUnsigned(n: nat)
    ensures LE(n, 2) == U16(n) && LE(n, 4) == U32(n) && LE(n, 8) == U64(n)
  {
    Weights();
    forall k, i | 0 <= i < k <= 8 ensures LE(n, k)[i] == Digit256(n, Pow256(i)) {
      LEBytes(n, k, i);
    }
    assert |LE(n, 2)| == 2 && |LE(n, 4)| == 4 && |LE(n, 8)| == 8;
  }

  lemma Flat(a: bytes, k: bytes, b: bytes, v: bytes, t: bytes, d: bytes)
    ensures (a + k) + ((b + v) + (t + d)) == a + k + b + v + t + d
  {
  }

  /** One item: its key behind its length, its value behind its length, the seconds it has
      left, and its deadline. */
  lemma ItemBytes(e: Entry, now: int)
    ensures EncodeItem(e, now)
            == U16(|e.key|) + e.key + U32(|e.item.value|) + e.item.value
               + U64(TtlSeconds(e.item, now) % 0x1_0000_0000_0000_0000)
               + U64(e.item.expiration % 0x1_0000_0000_0000_0000)
  {
    var secs, deadline := TtlSeconds(e.item, now) % TWO64, e.item.expiration % TWO64;
    LEIsUnsigned(|e.key|);
    LEIsUnsigned(|e.item.value|);
    LEIsUnsigned(secs);
    LEIsUnsigned(deadline);
    Flat(U16(|e.key|), e.key, U32(|e.item.value|), e.item.value, U64(secs), U64(deadline));
  }

  /** Nothing for an item without a deadline; the whole seconds, for less than 194 days. */
  lemma SecondsWritten(item: Item, now: int)
    ensures item.expiration == 0 ==> TtlSeconds(item, now) == 0
    ensures item.expiration != 0 && now <= item.expiration < now + 0x100_0000 * 1_000_000_000 ==>
              TtlSeconds(item, now) == (item.expiration - now) / 1_000_000_000
  {
    if item.expiration != 0 && now <= item.expiration < now + 0x100_0000 * 1_000_000_000 {
      S.ShortTimesAreFloored(item.expiration - now);
    }
  }

  /** One item, in shard number `i` of `n`. */
  function OneItem(n: nat, i: nat, e: Entry): seq<seq<Entry>> {
    seq(n, j => if j == i then [e] else [])
  }

  lemma {:induction false} BlocksOfOne(n: nat, i: nat, e: Entry)
    ensures BlocksOf(OneItem(n, i, e)) == if i < n then [Block(i, [e])] else []
  {
    if n > 0 {
      assert OneItem(n, i, e)[..n - 1] == OneItem(n - 1, i, e);
      BlocksOfOne(n - 1, i, e);
    }
  }

  lemma OneBlock(b: Block, now: int)
    ensures EncodeBlocks([b], now) == EncodeBlock(b, now)
    ensures |b.items| == 1 ==>
              EncodeBlock(b, now) == U16(b.shard) + [1, 0, 0, 0] + EncodeItem(b.items[0], now)
  {
    assert EncodeBlocks([b], now) == EncodeBlock(b, now) + EncodeBlocks([], now);
    if |b.items| == 1 {
      LEIsUnsigned(b.shard);
      LEIsUnsigned(1);
      assert U32(1) == [1, 0, 0, 0];
      assert EncodeItems(b.items, now) == EncodeItem(b.items[0], now) + EncodeItems([], now);
    }
  }

  lemma HeaderBytes(n: nat)
    ensures Header(n) == Ascii("PENDEM") + [1] + U16(n)
  {
    LEIsUnsigned(n);
    assert Ascii("PENDEM") == MAGIC;
  }

  /** An item without a deadline ends in twice 8 bytes of zeros. */
  lemma PlainItemBytes(k: bytes, v: bytes, now: int)
    ensures EncodeItem(Entry(k, Item(v, 0)), now)
            == U16(|k|) + k + U32(|v|) + v + [0, 0, 0, 0, 0, 0, 0, 0] + [0, 0, 0, 0, 0, 0, 0, 0]
  {
    var item := Item(v, 0);
    SecondsWritten(item, now);
    NoTime();
    assert U64(TtlSeconds(item, now) % 0x1_0000_0000_0000_0000) == [0, 0, 0, 0, 0, 0, 0, 0];
    ItemBytes(Entry(k, item), now);
  }

  lemma NoTime()
    ensures U64(0) == [0, 0, 0, 0, 0, 0, 0, 0]
  {
  }

  lemma OneItemFile(n: nat, i: nat, e: Entry, now: int)
    requires i < n
    ensures EncodeFile(OneItem(n, i, e), now) == Header(n) + (U16(i) + [1, 0, 0, 0] + EncodeItem(e, now))
  {
    BlocksOfOne(n, i, e);
    OneBlock(Block(i, [e]), now);
  }

  /** The literal bytes of a snapshot with one item that has no deadline: "PENDEM", version
      1, the number of shards, the number of the shard, the number of its items, key and
      value behind their lengths, and the two empty fields. */
  lemma SnapshotBytes(n: nat, i: nat, k: bytes, v: bytes, now: int)
    requires i < n
    ensures EncodeFile(OneItem(n, i, Entry(k, Item(v, 0))), now)
            == Ascii("PENDEM") + [1] + U16(n)
               + (U16(i) + [1, 0, 0, 0]
                  + (U16(|k|) + k + U32(|v|) + v + [0, 0, 0, 0, 0, 0, 0, 0] + [0, 0, 0, 0, 0, 0, 0, 0]))
  {
    OneItemFile(n, i, Entry(k, Item(v, 0)), now);
    HeaderBytes(n);
    PlainItemBytes(k, v, now);
  }

  /** A file is read only behind "PENDEM" and version 1; the number of shards that follows is
      passed over. */
  lemma HeaderIsChecked(s: bytes)
    ensures ReadFile(s) == if |s| >= 9 && s[..6] == Ascii("PENDEM") && s[6] == 1 then ReadBlocks(s[9..])
                           else Loaded([], false)
  {
    assert Ascii("PENDEM") == MAGIC;
  }
}
