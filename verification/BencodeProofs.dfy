/** `bencode` is uniquely decodable: decoder and serializer are inverse, in both directions. */
module BencodeProofs {
  import opened Bytes
  import opened Numerals
  import opened Sequences
  import opened Sorting
  import opened Bencode

  // ---- numbers and strings ----

  predicate NoDigit(rest: Bytes)
  {
    rest == [] || rest[0] < 48 || rest[0] > 57
  }

  lemma {:induction false} TakeWritten(ds: seq<Digit>, rest: Bytes)
    requires NoDigit(rest)
    ensures TakeDigits(DigitBytes(ds) + rest) == (ds, rest)
  {
    var s := DigitBytes(ds) + rest;
    if ds == [] {
      assert s == rest;
    } else {
      TakeWritten(ds[1..], rest);
      assert s[1..] == DigitBytes(ds[1..]) + rest;
      assert ds == [ds[0]] + ds[1..];
    }
  }

  lemma {:induction false} WriteTaken(s: Bytes)
    ensures s == DigitBytes(TakeDigits(s).0) + TakeDigits(s).1
    ensures NoDigit(TakeDigits(s).1)
  {
    if s != [] && 48 <= s[0] <= 57 {
      WriteTaken(s[1..]);
      var (ds, rest) := TakeDigits(s[1..]);
      assert DigitBytes([s[0] as int - 48] + ds) == [s[0]] + DigitBytes(ds);
      assert s == [s[0]] + s[1..];
    }
  }

  lemma NatParses(n: nat, rest: Bytes)
    requires NoDigit(rest)
    ensures ParseNat(DigitBytes(Digits(n)) + rest) == Got(n, rest)
  {
    TakeWritten(Digits(n), rest);
    DigitsRoundTrip(n);
  }

  lemma ParsedNat(s: Bytes)
    ensures ParseNat(s).Got? ==>
      s == DigitBytes(Digits(ParseNat(s).value)) + ParseNat(s).rest && NoDigit(ParseNat(s).rest)
  {
    WriteTaken(s);
    var (ds, rest) := TakeDigits(s);
    if Canonical(ds) { EvaluateRoundTrip(ds); }
  }

  lemma NumberStart(n: int)
    ensures Number(n) == if n < 0 then [MINUS] + DigitBytes(Digits(-n)) else DigitBytes(Digits(n))
    ensures n >= 0 ==> Number(n) != [] && 48 <= Number(n)[0] <= 57
  {
  }

  lemma IntParses(n: int, rest: Bytes)
    requires NoDigit(rest)
    ensures ParseInt(Number(n) + rest) == Got(n, rest)
  {
    hide ParseNat, Number, Digits, DigitBytes, NoDigit;
    NumberStart(n);
    if n < 0 {
      NatParses(-n, rest);
      var digits := DigitBytes(Digits(-n));
      BehindFirst([MINUS] + digits, rest);
      assert ([MINUS] + digits)[1..] == digits;
    } else {
      NatParses(n, rest);
      BehindFirst(Number(n), rest);
    }
  }

  lemma ParsedInt(s: Bytes)
    ensures ParseInt(s).Got? ==> s == Number(ParseInt(s).value) + ParseInt(s).rest
  {
    if s != [] && s[0] == MINUS {
      ParsedNat(s[1..]);
      assert s == [MINUS] + s[1..];
    } else {
      ParsedNat(s);
    }
  }

  lemma StringParses(raw: Bytes, rest: Bytes)
    ensures ParseString(Bencoded(raw) + rest) == Got(raw, rest)
  {
    var tail := [COLON] + raw + rest;
    assert Bencoded(raw) + rest == DigitBytes(Digits(|raw|)) + tail;
    NatParses(|raw|, tail);
    assert tail[1..|raw| + 1] == raw && tail[|raw| + 1..] == rest;
  }

  lemma BencodedIs(raw: Bytes)
    ensures Bencoded(raw) == DigitBytes(Digits(|raw|)) + [COLON] + raw
  {
  }

  lemma Cut(s: Bytes, n: nat)
    requires s != [] && n + 1 <= |s|
    ensures s == [s[0]] + (s[1..n + 1] + s[n + 1..])
  {
  }

  lemma ParsedString(s: Bytes)
    ensures ParseString(s).Got? ==> s == Bencoded(ParseString(s).value) + ParseString(s).rest
  {
    hide ParseNat, Bencoded, Digits, DigitBytes, NoDigit;
    ParsedNat(s);
    if ParseString(s).Got? {
      var n, rest := ParseNat(s).value, ParseNat(s).rest;
      var raw, more := rest[1..n + 1], rest[n + 1..];
      BencodedIs(raw);
      Cut(rest, n);
      Regroup(DigitBytes(Digits(n)), [COLON], raw + more);
      Regroup(DigitBytes(Digits(n)) + [COLON], raw, more);
    }
  }

  // ---- printing, then parsing ----

  lemma StringStart(raw: Bytes, rest: Bytes)
    ensures 48 <= (Bencoded(raw) + rest)[0] <= 57
  {
  }

  lemma {:induction false} PrintParses(t: Tree, rest: Bytes)
    requires Ordered(t)
    ensures Parse(Print(t) + rest) == Got(t, rest)
    ensures (Print(t) + rest)[0] != END
    decreases t, 1
  {
    hide Number, Bencoded, ParseInt, ParseString;
    var s := Print(t) + rest;
    match t
    case Integer(n) =>
      assert s[1..] == Number(n) + ([END] + rest);
      IntParses(n, [END] + rest);
    case String(raw) =>
      StringParses(raw, rest);
      StringStart(raw, rest);
    case Sequence(items) =>
      assert s[1..] == PrintItems(items) + ([END] + rest);
      ItemsParse(items, rest);
    case Dictionary(entries) =>
      assert s[1..] == PrintEntries(entries) + ([END] + rest);
      EntriesParse(entries, [], rest);
  }

  lemma {:induction false} ItemsParse(items: seq<Tree>, rest: Bytes)
    requires OrderedItems(items)
    ensures ParseItems(PrintItems(items) + ([END] + rest)) == Got(items, rest)
    decreases items, 0
  {
    hide Parse, Print;
    var s := PrintItems(items) + ([END] + rest);
    if items == [] {
      assert s == [END] + rest;
    } else {
      var more := PrintItems(items[1..]) + ([END] + rest);
      assert s == Print(items[0]) + more;
      PrintParses(items[0], more);
      ItemsParse(items[1..], rest);
      assert items == [items[0]] + items[1..];
    }
  }

  lemma {:induction false} EntriesParse(entries: seq<Field>, before: seq<Bytes>, rest: Bytes)
    requires OrderedEntries(entries, before)
    ensures ParseEntries(PrintEntries(entries) + ([END] + rest), before) == Got(entries, rest)
    decreases entries, 0
  {
    hide Bencoded, ParseString, Parse, Print, Follows;
    var s := PrintEntries(entries) + ([END] + rest);
    if entries == [] {
      assert s == [END] + rest;
    } else {
      var key, item := entries[0].key, entries[0].item;
      var more := PrintEntries(entries[1..]) + ([END] + rest);
      assert s == Bencoded(key) + (Print(item) + more);
      StringParses(key, Print(item) + more);
      StringStart(key, Print(item) + more);
      FieldParses(entries[0], more);
      EntriesParse(entries[1..], [key], rest);
      assert entries == [entries[0]] + entries[1..];
    }
  }

  lemma {:induction false} FieldParses(field: Field, more: Bytes)
    requires Ordered(field.item)
    ensures Parse(Print(field.item) + more) == Got(field.item, more)
    decreases field, 0
  {
    PrintParses(field.item, more);
  }

  // ---- parsing, then printing ----

  lemma {:induction false} ParsePrints(s: Bytes)
    ensures Parse(s).Got? ==> Ordered(Parse(s).value) && s == Print(Parse(s).value) + Parse(s).rest
    decreases |s|, 0
  {
    hide Bencoded, Number, ParseInt, ParseString;
    if Parse(s).Got? {
      assert s == [s[0]] + s[1..];
      if s[0] == INT {
        ParsedInt(s[1..]);
      } else if s[0] == LIST {
        ItemsPrint(s[1..]);
      } else if s[0] == DICT {
        EntriesPrint(s[1..], []);
      } else {
        ParsedString(s);
      }
    }
  }

  lemma {:induction false} ItemsPrint(s: Bytes)
    ensures ParseItems(s).Got? ==>
      OrderedItems(ParseItems(s).value) && s == PrintItems(ParseItems(s).value) + [END] + ParseItems(s).rest
    decreases |s|, 1
  {
    hide Parse, Print, Ordered;
    if ParseItems(s).Got? {
      if s[0] != END {
        ParsePrints(s);
        var first := Parse(s);
        ItemsPrint(first.rest);
        var items := ParseItems(first.rest).value;
        assert ([first.value] + items)[1..] == items;
      }
    }
  }

  lemma {:induction false} EntriesPrint(s: Bytes, before: seq<Bytes>)
    ensures ParseEntries(s, before).Got? ==>
      && OrderedEntries(ParseEntries(s, before).value, before)
      && s == PrintEntries(ParseEntries(s, before).value) + [END] + ParseEntries(s, before).rest
    decreases |s|, 1
  {
    hide Bencoded, ParseString, Parse, Print, Follows;
    if ParseEntries(s, before).Got? {
      if s[0] != END {
        ParsedString(s);
        var key := ParseString(s);
        ParsePrints(key.rest);
        var item := Parse(key.rest);
        EntriesPrint(item.rest, [key.value]);
        var entries := ParseEntries(item.rest, [key.value]).value;
        assert ([Field(key.value, item.value)] + entries)[1..] == entries;
      }
    }
  }

  /** The decoder accepts exactly the printed forms, followed by anything, and returns what was printed. */
  lemma ParseIffPrinted(s: Bytes, t: Tree, rest: Bytes)
    ensures Parse(s) == Got(t, rest) <==> Ordered(t) && s == Print(t) + rest
  {
    ParsePrints(s);
    if Ordered(t) { PrintParses(t, rest); }
  }

  // ---- the serializer prints what its argument means ----

  function Rendered(field: Field): (Bytes, Bytes)
  {
    (field.key, Print(field.item))
  }

  function RenderedAll(fields: seq<Field>): (r: seq<(Bytes, Bytes)>)
    ensures |r| == |fields|
  {
    if fields == [] then [] else [Rendered(fields[0])] + RenderedAll(fields[1..])
  }

  lemma {:induction false} JoinedRendered(fields: seq<Field>)
    ensures Joined(RenderedAll(fields)) == PrintEntries(fields)
  {
    if fields != [] {
      JoinedRendered(fields[1..]);
      assert RenderedAll(fields)[1..] == RenderedAll(fields[1..]);
    }
  }

  lemma {:induction false} InsertRendered(x: Field, fields: seq<Field>)
    ensures RenderedAll(Insert(FieldLe, x, fields)) == Insert(KeyLe, Rendered(x), RenderedAll(fields))
  {
    if fields != [] {
      var rest := RenderedAll(fields);
      assert rest[0] == Rendered(fields[0]) && rest[1..] == RenderedAll(fields[1..]);
      if !FieldLe(x, fields[0]) {
        InsertRendered(x, fields[1..]);
        var inserted := Insert(FieldLe, x, fields);
        assert inserted[0] == fields[0] && inserted[1..] == Insert(FieldLe, x, fields[1..]);
      } else {
        assert ([x] + fields)[1..] == fields;
      }
    } else {
      assert [x][1..] == [];
    }
  }

  lemma {:induction false} SortRendered(fields: seq<Field>)
    ensures RenderedAll(Sort(FieldLe, fields)) == Sort(KeyLe, RenderedAll(fields))
  {
    if fields != [] {
      SortRendered(fields[1..]);
      InsertRendered(fields[0], Sort(FieldLe, fields[1..]));
      assert RenderedAll(fields)[1..] == RenderedAll(fields[1..]);
    }
  }

  lemma {:induction false} EncodePrints(v: Value)
    ensures Encode(v) == Print(Meaning(v))
    decreases v, 1
  {
    match v
    case List(items) => ItemsPrintMeaning(items);
    case Dict(entries) =>
      EntriesRenderMeaning(entries);
      SortRendered(MeaningEntries(entries));
      JoinedRendered(Sort(FieldLe, MeaningEntries(entries)));
    case _ =>
  }

  lemma {:induction false} ItemsPrintMeaning(items: seq<Value>)
    ensures EncodeItems(items) == PrintItems(MeaningItems(items))
    decreases items, 0
  {
    if items != [] {
      EncodePrints(items[0]);
      ItemsPrintMeaning(items[1..]);
      assert MeaningItems(items)[1..] == MeaningItems(items[1..]);
    }
  }

  lemma {:induction false} EntriesRenderMeaning(entries: seq<Entry>)
    ensures EncodeEntries(entries) == RenderedAll(MeaningEntries(entries))
    decreases entries, 0
  {
    if entries != [] {
      EntryRendersMeaning(entries[0]);
      EntriesRenderMeaning(entries[1..]);
      assert MeaningEntries(entries)[1..] == MeaningEntries(entries[1..]);
    }
  }

  lemma {:induction false} EntryRendersMeaning(entry: Entry)
    ensures (KeyBytes(entry.key), EncodeEntry(entry)) == Rendered(MeaningEntry(entry))
    decreases entry, 0
  {
    EncodePrints(entry.item);
  }

  // ---- ascending keys are distinct keys, sorted ----

  predicate Ascending(fields: seq<Field>)
  {
    forall i, j :: 0 <= i < j < |fields| ==> FieldLe(fields[i], fields[j]) && fields[i].key != fields[j].key
  }

  ghost predicate AllOrdered(fields: seq<Field>)
  {
    forall i :: 0 <= i < |fields| ==> Ordered(fields[i].item)
  }

  lemma {:induction false} OrderedEntriesMeans(fields: seq<Field>, before: seq<Bytes>)
    requires |before| <= 1
    ensures OrderedEntries(fields, before) <==>
      Ascending(fields) && AllOrdered(fields) && (fields != [] ==> Follows(before, fields[0].key))
  {
    if fields != [] {
      var rest := fields[1..];
      OrderedEntriesMeans(rest, [fields[0].key]);
      if OrderedEntries(fields, before) {
        forall j | 0 < j < |fields| ensures FieldLe(fields[0], fields[j]) && fields[0].key != fields[j].key {
          assert fields[j] == rest[j - 1];
          if j > 1 {
            assert FieldLe(rest[0], rest[j - 1]);
            LexTransitive(fields[0].key, rest[0].key, rest[j - 1].key);
            LexTotal(fields[0].key, rest[0].key);
            LexTotal(rest[0].key, rest[j - 1].key);
          }
        }
        forall i, j | 0 <= i < j < |fields| ensures FieldLe(fields[i], fields[j]) && fields[i].key != fields[j].key {
          if i > 0 { assert fields[i] == rest[i - 1] && fields[j] == rest[j - 1]; }
        }
        forall i | 0 <= i < |fields| ensures Ordered(fields[i].item) {
          if i > 0 { assert fields[i] == rest[i - 1]; }
        }
      }
    }
  }

  lemma FieldOrder()
    ensures TotalPreorder(FieldLe) && TotalPreorder(KeyLe)
  {
    forall x: Field, y: Field ensures FieldLe(x, y) || FieldLe(y, x) { LexTotal(x.key, y.key); }
    forall x: Field, y: Field, z: Field | FieldLe(x, y) && FieldLe(y, z) ensures FieldLe(x, z) {
      LexTransitive(x.key, y.key, z.key);
    }
    forall x: (Bytes, Bytes), y: (Bytes, Bytes) ensures KeyLe(x, y) || KeyLe(y, x) { LexTotal(x.0, y.0); }
    forall x: (Bytes, Bytes), y: (Bytes, Bytes), z: (Bytes, Bytes) | KeyLe(x, y) && KeyLe(y, z) ensures KeyLe(x, z) {
      LexTransitive(x.0, y.0, z.0);
    }
  }

  // ---- exactly the dictionaries without colliding keys survive ----

  function FieldKey(field: Field): Bytes
  {
    field.key
  }

  lemma {:induction false} MeaningEntriesMap(entries: seq<Entry>)
    ensures MeaningEntries(entries) == MapSeq(MeaningEntry, entries)
    ensures |MeaningEntries(entries)| == |entries|
    ensures forall i :: 0 <= i < |entries| ==> MeaningEntries(entries)[i] == MeaningEntry(entries[i])
  {
    if entries != [] { MeaningEntriesMap(entries[1..]); }
  }

  /** A sorted dictionary ascends exactly when no two of its keys are equal. */
  lemma SortedAscends(fields: seq<Field>)
    ensures Ascending(Sort(FieldLe, fields)) <==> Distinct(MapSeq(FieldKey, fields))
  {
    hide LexLe, Sort, MapSeq, TotalPreorder;
    var sorted := Sort(FieldLe, fields);
    FieldOrder();
    SortSorted(FieldLe, fields);
    SortPermutes(FieldLe, fields);
    MapPermutes(FieldKey, sorted, fields);
    DistinctCounts(MapSeq(FieldKey, sorted));
    DistinctCounts(MapSeq(FieldKey, fields));
    SameElements(MapSeq(FieldKey, sorted), MapSeq(FieldKey, fields));
    if Distinct(MapSeq(FieldKey, sorted)) {
      forall i, j | 0 <= i < j < |sorted| ensures FieldLe(sorted[i], sorted[j]) && sorted[i].key != sorted[j].key {
        assert MapSeq(FieldKey, sorted)[i] != MapSeq(FieldKey, sorted)[j];
      }
    }
    if Ascending(sorted) {
      forall i, j | 0 <= i < j < |sorted| ensures MapSeq(FieldKey, sorted)[i] != MapSeq(FieldKey, sorted)[j] {
        assert sorted[i].key != sorted[j].key;
      }
    }
  }

  lemma SortedAllOrdered(fields: seq<Field>)
    ensures AllOrdered(Sort(FieldLe, fields)) <==> AllOrdered(fields)
  {
    SortPermutes(FieldLe, fields);
    var sorted := Sort(FieldLe, fields);
    if AllOrdered(fields) {
      forall i | 0 <= i < |sorted| ensures Ordered(sorted[i].item) { assert sorted[i] in fields; }
    }
    if AllOrdered(sorted) {
      forall i | 0 <= i < |fields| ensures Ordered(fields[i].item) { assert fields[i] in sorted; }
    }
  }

  lemma {:induction false} MeaningOrdered(v: Value)
    ensures Ordered(Meaning(v)) <==> WellKeyed(v)
    decreases v, 1
  {
    match v
    case List(items) => ItemsOrdered(items);
    case Dict(entries) =>
      var fields := MeaningEntries(entries);
      EntriesOrdered(entries);
      OrderedEntriesMeans(Sort(FieldLe, fields), []);
      SortedAscends(fields);
      SortedAllOrdered(fields);
      MeaningEntriesMap(entries);
      KeysDistinct(entries);
    case _ =>
  }

  lemma KeysDistinct(entries: seq<Entry>)
    ensures Distinct(MapSeq(FieldKey, MeaningEntries(entries))) <==> DistinctKeys(entries)
  {
    MeaningEntriesMap(entries);
    var keys := MapSeq(FieldKey, MeaningEntries(entries));
    forall i | 0 <= i < |entries| ensures keys[i] == KeyBytes(entries[i].key) {
      assert keys[i] == MeaningEntries(entries)[i].key;
    }
  }

  lemma {:induction false} ItemsOrdered(items: seq<Value>)
    ensures OrderedItems(MeaningItems(items)) <==> WellKeyedItems(items)
    decreases items, 0
  {
    if items != [] {
      MeaningOrdered(items[0]);
      ItemsOrdered(items[1..]);
      assert MeaningItems(items)[1..] == MeaningItems(items[1..]);
    }
  }

  lemma {:induction false} EntriesOrdered(entries: seq<Entry>)
    ensures AllOrdered(MeaningEntries(entries)) <==> WellKeyedEntries(entries)
    decreases entries, 0
  {
    if entries != [] {
      EntryOrdered(entries[0]);
      EntriesOrdered(entries[1..]);
      var fields := MeaningEntries(entries);
      assert fields[1..] == MeaningEntries(entries[1..]);
      assert AllOrdered(fields) <==> Ordered(fields[0].item) && AllOrdered(fields[1..]) by {
        if AllOrdered(fields[1..]) && Ordered(fields[0].item) {
          forall i | 0 <= i < |fields| ensures Ordered(fields[i].item) {
            if i > 0 { assert fields[i] == fields[1..][i - 1]; }
          }
        }
        if AllOrdered(fields) {
          forall i | 0 <= i < |fields[1..]| ensures Ordered(fields[1..][i].item) { assert fields[1..][i] == fields[i + 1]; }
        }
      }
    }
  }

  lemma {:induction false} EntryOrdered(entry: Entry)
    ensures Ordered(MeaningEntry(entry).item) <==> WellKeyed(entry.item)
    decreases entry, 0
  {
    MeaningOrdered(entry.item);
  }

  // ---- main results ----

  /** Whatever follows it, an encoding decodes to what was meant, exactly when no dictionary in it
      has two keys that encode alike. */
  lemma DecodesIffWellKeyed(v: Value, rest: Bytes)
    ensures Parse(Encode(v) + rest) == Got(Meaning(v), rest) <==> WellKeyed(v)
  {
    EncodePrints(v);
    MeaningOrdered(v);
    ParseIffPrinted(Encode(v) + rest, Meaning(v), rest);
  }

  // ---- no print is a prefix of another's, whatever the order of its keys ----

  lemma NumbersEnd(n: int, m: int, x: Bytes, y: Bytes)
    requires Number(n) + ([END] + x) == Number(m) + ([END] + y)
    ensures n == m && x == y
  {
    hide Number, ParseInt;
    IntParses(n, [END] + x);
    IntParses(m, [END] + y);
    assert ([END] + x)[1..] == x && ([END] + y)[1..] == y;
  }

  lemma StringsEnd(a: Bytes, b: Bytes, x: Bytes, y: Bytes)
    requires Bencoded(a) + x == Bencoded(b) + y
    ensures a == b && x == y
  {
    hide Bencoded, ParseString;
    StringParses(a, x);
    StringParses(b, y);
  }

  /** The first byte of a print tells what is printed, and is never the end of a list. */
  lemma FirstByte(t: Tree, rest: Bytes)
    ensures Print(t) != []
    ensures (Print(t) + rest)[0] == (match t case Integer(_) => INT case Sequence(_) => LIST case Dictionary(_) => DICT
                                     case String(raw) => (Bencoded(raw) + rest)[0])
    ensures t.String? ==> 48 <= (Print(t) + rest)[0] <= 57
    ensures (Print(t) + rest)[0] != END
  {
    if t.String? { StringStart(t.raw, rest); }
  }

  lemma {:induction false} PrintsEnd(t: Tree, u: Tree, x: Bytes, y: Bytes)
    requires Print(t) + x == Print(u) + y
    ensures t == u && x == y
    decreases t, 1
  {
    FirstByte(t, x);
    FirstByte(u, y);
    hide Number, Bencoded, PrintItems, PrintEntries;
    var s := Print(t) + x;
    match t
    case Integer(n) =>
      assert s[1..] == Number(n) + ([END] + x) && s[1..] == Number(u.n) + ([END] + y);
      NumbersEnd(n, u.n, x, y);
    case String(raw) =>
      StringsEnd(raw, u.raw, x, y);
    case Sequence(items) =>
      assert s[1..] == PrintItems(items) + ([END] + x) && s[1..] == PrintItems(u.items) + ([END] + y);
      ItemsEnd(items, u.items, x, y);
    case Dictionary(entries) =>
      assert s[1..] == PrintEntries(entries) + ([END] + x) && s[1..] == PrintEntries(u.entries) + ([END] + y);
      EntriesEnd(entries, u.entries, x, y);
  }

  lemma {:induction false} ItemsEnd(a: seq<Tree>, b: seq<Tree>, x: Bytes, y: Bytes)
    requires PrintItems(a) + ([END] + x) == PrintItems(b) + ([END] + y)
    ensures a == b && x == y
    decreases a, 0
  {
    hide Print;
    ItemsOpen(a, x);
    ItemsOpen(b, y);
    if a == [] || b == [] {
      assert ([END] + x)[1..] == x && ([END] + y)[1..] == y;
    } else {
      var moreA, moreB := PrintItems(a[1..]) + ([END] + x), PrintItems(b[1..]) + ([END] + y);
      assert Print(a[0]) + moreA == Print(b[0]) + moreB;
      PrintsEnd(a[0], b[0], moreA, moreB);
      ItemsEnd(a[1..], b[1..], x, y);
      assert a == [a[0]] + a[1..] && b == [b[0]] + b[1..];
    }
  }

  lemma ItemsPrintEach(items: seq<Tree>)
    ensures PrintItems(items) == if items == [] then [] else Print(items[0]) + PrintItems(items[1..])
  {
  }

  lemma ItemsOpen(items: seq<Tree>, x: Bytes)
    ensures items == [] ==> PrintItems(items) + ([END] + x) == [END] + x
    ensures items != [] ==>
      && PrintItems(items) + ([END] + x) == Print(items[0]) + (PrintItems(items[1..]) + ([END] + x))
      && (PrintItems(items) + ([END] + x))[0] != END
  {
    hide Print, PrintItems;
    ItemsPrintEach(items);
    if items == [] {
      NothingBefore([END] + x);
    } else {
      Regroup(Print(items[0]), PrintItems(items[1..]), [END] + x);
      FirstByte(items[0], PrintItems(items[1..]) + ([END] + x));
    }
  }

  lemma {:induction false} EntriesEnd(a: seq<Field>, b: seq<Field>, x: Bytes, y: Bytes)
    requires PrintEntries(a) + ([END] + x) == PrintEntries(b) + ([END] + y)
    ensures a == b && x == y
    decreases a, 0
  {
    hide Print, Bencoded, PrintEntries;
    EntriesOpen(a, x);
    EntriesOpen(b, y);
    if a == [] || b == [] {
      assert ([END] + x)[1..] == x && ([END] + y)[1..] == y;
    } else {
      var moreA, moreB := PrintEntries(a[1..]) + ([END] + x), PrintEntries(b[1..]) + ([END] + y);
      StringsEnd(a[0].key, b[0].key, Print(a[0].item) + moreA, Print(b[0].item) + moreB);
      ItemEnds(a[0], b[0], moreA, moreB);
      EntriesEnd(a[1..], b[1..], x, y);
      assert a == [a[0]] + a[1..] && b == [b[0]] + b[1..];
    }
  }

  lemma {:induction false} ItemEnds(f: Field, g: Field, x: Bytes, y: Bytes)
    requires Print(f.item) + x == Print(g.item) + y
    ensures f.item == g.item && x == y
    decreases f, 0
  {
    PrintsEnd(f.item, g.item, x, y);
  }

  lemma EntriesPrintEach(entries: seq<Field>)
    ensures PrintEntries(entries) ==
      if entries == [] then [] else Bencoded(entries[0].key) + Print(entries[0].item) + PrintEntries(entries[1..])
  {
  }

  lemma EntriesOpen(entries: seq<Field>, x: Bytes)
    ensures entries == [] ==> PrintEntries(entries) + ([END] + x) == [END] + x
    ensures entries != [] ==>
      && PrintEntries(entries) + ([END] + x)
           == Bencoded(entries[0].key) + (Print(entries[0].item) + (PrintEntries(entries[1..]) + ([END] + x)))
      && (PrintEntries(entries) + ([END] + x))[0] != END
  {
    hide Print, PrintEntries, Bencoded;
    EntriesPrintEach(entries);
    if entries == [] {
      NothingBefore([END] + x);
    } else {
      var key, item, rest := Bencoded(entries[0].key), Print(entries[0].item), PrintEntries(entries[1..]);
      Regroup(key + item, rest, [END] + x);
      Regroup(key, item, rest + ([END] + x));
      StringStart(entries[0].key, item + (rest + ([END] + x)));
    }
  }

  /** No encoding is a prefix of another's, and equal encodings mean the same: of every two values,
      colliding keys or not. */
  lemma PrefixFree(v: Value, w: Value, x: Bytes, y: Bytes)
    requires Encode(v) + x == Encode(w) + y
    ensures Meaning(v) == Meaning(w) && Encode(v) == Encode(w) && x == y
  {
    hide Encode, Print, Meaning;
    EncodePrints(v);
    EncodePrints(w);
    PrintsEnd(Meaning(v), Meaning(w), x, y);
  }

  lemma SameDictionary(entries: seq<Entry>, shuffled: seq<Entry>)
    requires multiset(entries) == multiset(shuffled) && DistinctKeys(entries)
    ensures Meaning(Dict(entries)) == Meaning(Dict(shuffled))
  {
    hide LexLe, Sort, MeaningEntry, Distinct, DistinctKeys, MapSeq;
    KeysDistinct(entries);
    MeaningEntriesMap(entries);
    MeaningEntriesMap(shuffled);
    hide MeaningEntries;
    MapPermutes(MeaningEntry, entries, shuffled);
    DistinctFieldsSort(MeaningEntries(entries), MeaningEntries(shuffled));
  }

  /** The order in which a dictionary was filled does not show. */
  lemma InsertionOrderHidden(entries: seq<Entry>, shuffled: seq<Entry>)
    requires multiset(entries) == multiset(shuffled) && DistinctKeys(entries)
    ensures Encode(Dict(entries)) == Encode(Dict(shuffled))
  {
    hide Encode, Print, Meaning, DistinctKeys;
    SameDictionary(entries, shuffled);
    EncodePrints(Dict(entries));
    EncodePrints(Dict(shuffled));
  }

  lemma FieldsApart(fields: seq<Field>, x: Field, y: Field)
    requires x in fields && y in fields && Distinct(MapSeq(FieldKey, fields)) && FieldLe(x, y) && FieldLe(y, x)
    ensures x == y
  {
    LexTotal(x.key, y.key);
    hide LexLe;
    var i :| 0 <= i < |fields| && fields[i] == x;
    var j :| 0 <= j < |fields| && fields[j] == y;
    assert MapSeq(FieldKey, fields)[i] == MapSeq(FieldKey, fields)[j];
  }

  lemma DistinctFieldsSort(fields: seq<Field>, fields': seq<Field>)
    requires multiset(fields) == multiset(fields') && Distinct(MapSeq(FieldKey, fields))
    ensures Sort(FieldLe, fields) == Sort(FieldLe, fields')
  {
    hide Sort, FieldLe, Distinct, Sorted, TotalPreorder;
    FieldOrder();
    SortSorted(FieldLe, fields);
    SortSorted(FieldLe, fields');
    SortPermutes(FieldLe, fields);
    SortPermutes(FieldLe, fields');
    forall x, y | x in Sort(FieldLe, fields) && y in Sort(FieldLe, fields) && FieldLe(x, y) && FieldLe(y, x) ensures x == y {
      FieldsApart(fields, x, y);
    }
    SortedUnique(FieldLe, Sort(FieldLe, fields), Sort(FieldLe, fields'));
  }
}
