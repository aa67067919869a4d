/** The torrent serializer, and the decoder that undoes it. */
module Bencode {
  import opened Bytes
  import opened Numerals
  import opened Sorting

  const COLON: Byte := 58
  const MINUS: Byte := 45
  const INT: Byte := 105    // 'i'
  const LIST: Byte := 108   // 'l'
  const DICT: Byte := 100   // 'd'
  const END: Byte := 101    // 'e'

  // ---- what is serialized ----

  datatype Key = TextKey(text: string) | RawKey(raw: Bytes)

  /** The Python values `bencode` accepts; a dictionary lists its entries in insertion order. */
  datatype Value =
    | Bool(b: bool)
    | Int(n: int)
    | Raw(raw: Bytes)
    | Text(text: string)
    | List(items: seq<Value>)
    | Dict(entries: seq<Entry>)

  datatype Entry = Entry(key: Key, item: Value)

  function KeyBytes(k: Key): Bytes
  {
    match k
    case TextKey(text) => Utf8(text)
    case RawKey(raw) => raw
  }

  function DigitBytes(ds: seq<Digit>): Bytes
  {
    seq(|ds|, i requires 0 <= i < |ds| => 48 + ds[i] as int)
  }

  /** `b"%d"`. */
  function Number(n: int): Bytes
  {
    if n < 0 then [MINUS] + DigitBytes(Digits(-n)) else DigitBytes(Digits(n))
  }

  function Bencoded(raw: Bytes): Bytes
  {
    Number(|raw|) + [COLON] + raw
  }

  predicate KeyLe(x: (Bytes, Bytes), y: (Bytes, Bytes))
  {
    LexLe(x.0, y.0)
  }

  /** `bencode`. Dictionary entries are sorted by their encoded keys. */
  function Encode(v: Value): Bytes
    decreases v, 1
  {
    match v
    case Bool(b) => [INT] + Number(if b then 1 else 0) + [END]
    case Int(n) => [INT] + Number(n) + [END]
    case Raw(raw) => Bencoded(raw)
    case Text(text) => Bencoded(Utf8(text))
    case List(items) => [LIST] + EncodeItems(items) + [END]
    case Dict(entries) => [DICT] + Joined(Sort(KeyLe, EncodeEntries(entries))) + [END]
  }

  function EncodeItems(items: seq<Value>): Bytes
    decreases items, 0
  {
    if items == [] then [] else Encode(items[0]) + EncodeItems(items[1..])
  }

  function EncodeEntries(entries: seq<Entry>): seq<(Bytes, Bytes)>
    decreases entries, 0
  {
    if entries == [] then []
    else
      var entry := entries[0];
      [(KeyBytes(entry.key), EncodeEntry(entry))] + EncodeEntries(entries[1..])
  }

  function EncodeEntry(entry: Entry): Bytes
    decreases entry, 0
  {
    Encode(entry.item)
  }

  function Joined(entries: seq<(Bytes, Bytes)>): Bytes
  {
    if entries == [] then [] else Bencoded(entries[0].0) + entries[0].1 + Joined(entries[1..])
  }

  // ---- what is decoded ----

  /** The values of the "bencoding" section of BEP 3. */
  datatype Tree =
    | Integer(n: int)
    | String(raw: Bytes)
    | Sequence(items: seq<Tree>)
    | Dictionary(entries: seq<Field>)

  datatype Field = Field(key: Bytes, item: Tree)

  datatype Parsed<T> = Got(value: T, rest: Bytes) | Malformed

  function TakeDigits(s: Bytes): (r: (seq<Digit>, Bytes))
    ensures |r.1| + |r.0| == |s|
  {
    if s != [] && 48 <= s[0] <= 57 then
      var (ds, rest) := TakeDigits(s[1..]);
      ([s[0] as int - 48] + ds, rest)
    else ([], s)
  }

  /** A numeral without leading zeros. */
  function ParseNat(s: Bytes): (r: Parsed<nat>)
    ensures r.Got? ==> |r.rest| < |s|
  {
    var (ds, rest) := TakeDigits(s);
    if Canonical(ds) then Got(Evaluate(ds), rest) else Malformed
  }

  function ParseInt(s: Bytes): (r: Parsed<int>)
    ensures r.Got? ==> |r.rest| < |s|
  {
    if s != [] && s[0] == MINUS then
      var r := ParseNat(s[1..]);
      if r.Malformed? || r.value == 0 then Malformed else Got(0 - r.value, r.rest)
    else
      match ParseNat(s)
      case Got(n, rest) => Got(n, rest)
      case Malformed => Malformed
  }

  function ParseString(s: Bytes): (r: Parsed<Bytes>)
    ensures r.Got? ==> |r.rest| < |s|
  {
    match ParseNat(s)
    case Malformed => Malformed
    case Got(n, rest) =>
      if rest != [] && rest[0] == COLON && n <= |rest| - 1 then Got(rest[1..n + 1], rest[n + 1..]) else Malformed
  }

  /** The decoder: no leading zeros, no minus zero, keys strictly ascending. */
  function Parse(s: Bytes): (r: Parsed<Tree>)
    ensures r.Got? ==> |r.rest| < |s|
    decreases |s|, 0
  {
    if s == [] then Malformed
    else if s[0] == INT then
      match ParseInt(s[1..])
      case Got(n, rest) => if rest != [] && rest[0] == END then Got(Integer(n), rest[1..]) else Malformed
      case Malformed => Malformed
    else if s[0] == LIST then
      match ParseItems(s[1..])
      case Got(items, rest) => Got(Sequence(items), rest)
      case Malformed => Malformed
    else if s[0] == DICT then
      match ParseEntries(s[1..], [])
      case Got(entries, rest) => Got(Dictionary(entries), rest)
      case Malformed => Malformed
    else
      match ParseString(s)
      case Got(raw, rest) => Got(String(raw), rest)
      case Malformed => Malformed
  }

  function ParseItems(s: Bytes): (r: Parsed<seq<Tree>>)
    ensures r.Got? ==> |r.rest| < |s|
    decreases |s|, 1
  {
    if s == [] then Malformed
    else if s[0] == END then Got([], s[1..])
    else
      match Parse(s)
      case Malformed => Malformed
      case Got(item, rest) =>
        match ParseItems(rest)
        case Malformed => Malformed
        case Got(items, rest') => Got([item] + items, rest')
  }

  /** `before` holds the previous key, if there is one. */
  function ParseEntries(s: Bytes, before: seq<Bytes>): (r: Parsed<seq<Field>>)
    ensures r.Got? ==> |r.rest| < |s|
    decreases |s|, 1
  {
    if s == [] then Malformed
    else if s[0] == END then Got([], s[1..])
    else
      match ParseString(s)
      case Malformed => Malformed
      case Got(key, rest) =>
        if !Follows(before, key) then Malformed
        else
          match Parse(rest)
          case Malformed => Malformed
          case Got(item, rest') =>
            match ParseEntries(rest', [key])
            case Malformed => Malformed
            case Got(entries, rest'') => Got([Field(key, item)] + entries, rest'')
  }

  predicate Follows(before: seq<Bytes>, key: Bytes)
  {
    forall k :: k in before ==> LexLe(k, key) && k != key
  }

  // ---- the standard's own printer ----

  function Print(t: Tree): Bytes
    decreases t, 1
  {
    match t
    case Integer(n) => [INT] + Number(n) + [END]
    case String(raw) => Bencoded(raw)
    case Sequence(items) => [LIST] + PrintItems(items) + [END]
    case Dictionary(entries) => [DICT] + PrintEntries(entries) + [END]
  }

  function PrintItems(items: seq<Tree>): Bytes
    decreases items, 0
  {
    if items == [] then [] else Print(items[0]) + PrintItems(items[1..])
  }

  function PrintEntries(entries: seq<Field>): Bytes
    decreases entries, 0
  {
    if entries == [] then [] else Bencoded(entries[0].key) + Print(entries[0].item) + PrintEntries(entries[1..])
  }

  /** The characters of a text, a byte each. */
  function Plain(s: string): (bytes: Bytes)
    requires forall i :: 0 <= i < |s| ==> s[i] as int < 128
    ensures |bytes| == |s| && forall i :: 0 <= i < |s| ==> bytes[i] == s[i] as int
  {
    seq(|s|, i requires 0 <= i < |s| => s[i] as int)
  }

  lemma DigitBytesArePlain(n: nat)
    ensures DigitBytes(Digits(n)) == Plain(Decimal(n))
  {
  }

  /** What stands on paper: `i-12e` and `4:spam`. */
  lemma PrintedNumber(n: int)
    ensures n >= 0 ==> Print(Integer(n)) == Plain("i") + Plain(Decimal(n)) + Plain("e")
    ensures n < 0 ==> Print(Integer(n)) == Plain("i-") + Plain(Decimal(-n)) + Plain("e")
  {
    DigitBytesArePlain(if n < 0 then -n else n);
    hide Decimal;
    assert Plain("i") == [INT] && Plain("e") == [END] && Plain("i-") == [INT, MINUS];
  }

  lemma PrintedText(raw: Bytes)
    ensures Print(String(raw)) == Plain(Decimal(|raw|)) + Plain(":") + raw
  {
    DigitBytesArePlain(|raw|);
    hide Decimal;
    assert Plain(":") == [COLON];
  }

  /** And `l...e` and `d...e`. */
  lemma PrintedGroup(items: seq<Tree>, entries: seq<Field>)
    ensures Print(Sequence(items)) == Plain("l") + PrintItems(items) + Plain("e")
    ensures Print(Dictionary(entries)) == Plain("d") + PrintEntries(entries) + Plain("e")
  {
    hide PrintItems, PrintEntries;
    assert Plain("l") == [LIST] && Plain("d") == [DICT] && Plain("e") == [END];
  }

  /** Items stand one behind the other, and each key in front of its item, as a string. */
  lemma PrintInOrder(items: seq<Tree>, item: Tree, entries: seq<Field>, entry: Field)
    ensures PrintItems([]) == [] && PrintItems([item] + items) == Print(item) + PrintItems(items)
    ensures PrintEntries([]) == []
    ensures PrintEntries([entry] + entries) == Print(String(entry.key)) + Print(entry.item) + PrintEntries(entries)
  {
    hide Print;
    assert ([item] + items)[1..] == items && ([entry] + entries)[1..] == entries;
    assert Print(String(entry.key)) == Bencoded(entry.key) by { PrintedString(entry.key); }
  }

  lemma PrintedString(raw: Bytes)
    ensures Print(String(raw)) == Bencoded(raw)
  {
  }

  /** Keys strictly ascending, at every depth. */
  predicate Ordered(t: Tree)
    decreases t, 1
  {
    match t
    case Integer(_) => true
    case String(_) => true
    case Sequence(items) => OrderedItems(items)
    case Dictionary(entries) => OrderedEntries(entries, [])
  }

  predicate OrderedItems(items: seq<Tree>)
    decreases items, 0
  {
    items == [] || (Ordered(items[0]) && OrderedItems(items[1..]))
  }

  predicate OrderedEntries(entries: seq<Field>, before: seq<Bytes>)
    decreases entries, 0
  {
    entries == [] ||
    (Follows(before, entries[0].key) && Ordered(entries[0].item) && OrderedEntries(entries[1..], [entries[0].key]))
  }

  // ---- what a Python value means to the standard ----

  predicate FieldLe(x: Field, y: Field)
  {
    LexLe(x.key, y.key)
  }

  /** Text is its UTF-8 bytes, a boolean is a number, a dictionary is its entries by ascending key. */
  function Meaning(v: Value): Tree
    decreases v, 1
  {
    match v
    case Bool(b) => Integer(if b then 1 else 0)
    case Int(n) => Integer(n)
    case Raw(raw) => String(raw)
    case Text(text) => String(Utf8(text))
    case List(items) => Sequence(MeaningItems(items))
    case Dict(entries) => Dictionary(Sort(FieldLe, MeaningEntries(entries)))
  }

  function MeaningItems(items: seq<Value>): seq<Tree>
    decreases items, 0
  {
    if items == [] then [] else [Meaning(items[0])] + MeaningItems(items[1..])
  }

  function MeaningEntries(entries: seq<Entry>): seq<Field>
    decreases entries, 0
  {
    if entries == [] then [] else [MeaningEntry(entries[0])] + MeaningEntries(entries[1..])
  }

  function MeaningEntry(entry: Entry): Field
    decreases entry, 0
  {
    Field(KeyBytes(entry.key), Meaning(entry.item))
  }

  /** No two keys of one dictionary encode alike, at any depth. */
  predicate WellKeyed(v: Value)
    decreases v, 1
  {
    match v
    case List(items) => WellKeyedItems(items)
    case Dict(entries) => DistinctKeys(entries) && WellKeyedEntries(entries)
    case _ => true
  }

  predicate DistinctKeys(entries: seq<Entry>)
  {
    forall i, j :: 0 <= i < j < |entries| ==> KeyBytes(entries[i].key) != KeyBytes(entries[j].key)
  }

  predicate WellKeyedItems(items: seq<Value>)
    decreases items, 0
  {
    items == [] || (WellKeyed(items[0]) && WellKeyedItems(items[1..]))
  }

  predicate WellKeyedEntries(entries: seq<Entry>)
    decreases entries, 0
  {
    entries == [] || (WellKeyedEntry(entries[0]) && WellKeyedEntries(entries[1..]))
  }

  predicate WellKeyedEntry(entry: Entry)
    decreases entry, 0
  {
    WellKeyed(entry.item)
  }
}
