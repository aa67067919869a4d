/** The torrent of one file: its pieces, and what a reader gets back out of it. */
module Torrent {

  import opened Bytes
  import opened Bencode
  import opened BencodeProofs
  import opened Sorting

  const PIECE_LENGTH := 262144
  const TRACKER := "http://fake-indexer:9117/announce"
  const DIGEST_LENGTH := 20

  /** SHA-1, of which only the length of its digests matters here. */
  type Digest = Bytes -> Bytes

  ghost predicate TwentyBytes(sha1: Digest)
  {
    forall raw :: |sha1(raw)| == DIGEST_LENGTH
  }

  /** `data[offset : offset + PIECE_LENGTH]` for every offset in the range. */
  function Pieces(data: Bytes): seq<Bytes>
    decreases |data|
  {
    if data == [] then []
    else if |data| <= PIECE_LENGTH then [data]
    else [data[..PIECE_LENGTH]] + Pieces(data[PIECE_LENGTH..])
  }

  function Digests(sha1: Digest, pieces: seq<Bytes>): Bytes
  {
    if pieces == [] then [] else sha1(pieces[0]) + Digests(sha1, pieces[1..])
  }

  function Info(name: string, data: Bytes, sha1: Digest): Value
  {
    Dict([
      Entry(TextKey("length"), Int(|data|)),
      Entry(TextKey("name"), Text(name)),
      Entry(TextKey("piece length"), Int(PIECE_LENGTH)),
      Entry(TextKey("pieces"), Raw(Digests(sha1, Pieces(data))))])
  }

  function Document(name: string, data: Bytes, sha1: Digest, now: int): Value
  {
    Dict([
      Entry(TextKey("announce"), Text(TRACKER)),
      Entry(TextKey("created by"), Text("pornarr-fake-indexer")),
      Entry(TextKey("creation date"), Int(now)),
      Entry(TextKey("info"), Info(name, data, sha1))])
  }

  /** `build_torrent`: the torrent, its info hash, the size. */
  function BuildTorrent(name: string, data: Bytes, sha1: Digest, now: int): (Bytes, Bytes, nat)
  {
    (Encode(Document(name, data, sha1, now)), sha1(Encode(Info(name, data, sha1))), |data|)
  }

  function Least(a: int, b: int): int
  {
    if a < b then a else b
  }

  lemma SliceOfRest(data: Bytes, n: nat, a: nat, b: nat)
    requires n <= |data| && a <= b <= |data| - n
    ensures data[n..][a..b] == data[a + n..b + n]
  {
  }

  /** Piece number `k` is the bytes from `k` piece lengths on, as many as there are, and there are no others. */
  lemma {:induction false} PieceIs(data: Bytes, k: nat)
    ensures k < |Pieces(data)| <==> k * 262144 < |data|
    ensures k < |Pieces(data)| ==>
      Pieces(data)[k] == data[k * 262144..Least((k + 1) * 262144, |data|)]
    decreases |data|
  {
    if |data| > PIECE_LENGTH && k > 0 {
      var rest := data[PIECE_LENGTH..];
      PieceIs(rest, k - 1);
      if k < |Pieces(data)| {
        var a, b := (k - 1) * PIECE_LENGTH, Least(k * PIECE_LENGTH, |rest|);
        SliceOfRest(data, PIECE_LENGTH, a, b);
      }
    }
  }

  lemma {:induction false} DigestIs(sha1: Digest, pieces: seq<Bytes>, k: nat)
    requires TwentyBytes(sha1)
    ensures |Digests(sha1, pieces)| == DIGEST_LENGTH * |pieces|
    ensures k < |pieces| ==>
      Digests(sha1, pieces)[DIGEST_LENGTH * k..DIGEST_LENGTH * (k + 1)] == sha1(pieces[k])
    decreases |pieces|
  {
    if pieces != [] {
      DigestIs(sha1, pieces[1..], if k == 0 then 0 else k - 1);
      var first, rest := sha1(pieces[0]), Digests(sha1, pieces[1..]);
      if 0 < k < |pieces| {
        var a, b := DIGEST_LENGTH * (k - 1), DIGEST_LENGTH * k;
        assert (first + rest)[a + DIGEST_LENGTH..b + DIGEST_LENGTH] == rest[a..b];
      }
    }
  }

  // ---- reading it back ----

  predicate Ascii(s: string)
  {
    forall i :: 0 <= i < |s| ==> s[i] as int < 128
  }

  lemma {:induction false} AsciiBytes(s: string)
    requires Ascii(s)
    ensures |Utf8(s)| == |s| && forall i :: 0 <= i < |s| ==> Utf8(s)[i] == s[i] as int
  {
    if s != "" { AsciiBytes(s[1..]); }
  }

  /** Two keys in order, by the first character that differs. */
  predicate Before(a: string, b: string, k: nat)
  {
    Ascii(a) && Ascii(b) && k < |a| && k < |b| && a[..k] == b[..k] && a[k] < b[k]
  }

  lemma {:induction false} LexBefore(a: seq<int>, b: seq<int>, k: nat)
    requires k < |a| && k < |b| && a[..k] == b[..k] && a[k] < b[k]
    ensures LexLe(a, b) && a != b
    decreases k
  {
    if k > 0 {
      assert a[0] == a[..k][0] == b[..k][0] == b[0];
      assert a[1..][..k - 1] == a[..k][1..] && b[1..][..k - 1] == b[..k][1..];
      LexBefore(a[1..], b[1..], k - 1);
    }
  }

  lemma KeysInOrder(a: string, b: string, k: nat)
    requires Before(a, b, k)
    ensures LexLe(Utf8(a), Utf8(b)) && Utf8(a) != Utf8(b)
  {
    AsciiBytes(a);
    AsciiBytes(b);
    hide Utf8;
    assert forall i :: 0 <= i < k ==> a[..k][i] == a[i] && b[..k][i] == b[i];
    assert Utf8(a)[..k] == Utf8(b)[..k];
    LexBefore(Utf8(a), Utf8(b), k);
  }

  lemma {:induction false} SortOfSorted<T>(le: (T, T) -> bool, xs: seq<T>)
    requires Sorted(le, xs)
    ensures Sort(le, xs) == xs
    decreases |xs|
  {
    if xs != [] {
      SortOfSorted(le, xs[1..]);
      assert xs == [xs[0]] + xs[1..];
    }
  }

  /** The keys, encoded, ascend. */
  predicate Ascend(e: seq<Entry>)
  {
    forall x, y :: 0 <= x < y < |e| ==>
      LexLe(KeyBytes(e[x].key), KeyBytes(e[y].key)) && KeyBytes(e[x].key) != KeyBytes(e[y].key)
  }

  lemma FourAscend(e: seq<Entry>, i: nat, j: nat, k: nat)
    requires |e| == 4 && forall x :: x in e ==> x.key.TextKey?
    requires Before(e[0].key.text, e[1].key.text, i) && Before(e[1].key.text, e[2].key.text, j)
    requires Before(e[2].key.text, e[3].key.text, k)
    ensures Ascend(e)
  {
    hide Utf8, LexLe, Before;
    KeysInOrder(e[0].key.text, e[1].key.text, i);
    KeysInOrder(e[1].key.text, e[2].key.text, j);
    KeysInOrder(e[2].key.text, e[3].key.text, k);
    FourOrdered(Utf8(e[0].key.text), Utf8(e[1].key.text), Utf8(e[2].key.text), Utf8(e[3].key.text));
  }

  lemma FourSorted(e: seq<Entry>)
    requires |e| == 4 && Ascend(e)
    ensures Sorted(FieldLe, [MeaningEntry(e[0]), MeaningEntry(e[1]), MeaningEntry(e[2]), MeaningEntry(e[3])])
    ensures DistinctKeys(e)
  {
    hide Utf8, LexLe, KeyBytes, Meaning;
  }

  lemma DictMeans(e: seq<Entry>)
    ensures Meaning(Dict(e)) == Dictionary(Sort(FieldLe, MeaningEntries(e)))
    ensures WellKeyed(Dict(e)) <==> DistinctKeys(e) && WellKeyedEntries(e)
  {
    hide MeaningEntries, Sort, DistinctKeys, WellKeyedEntries;
  }

  /** Four entries listed by ascending key keep their order. */
  lemma FourInOrder(e: seq<Entry>, i: nat, j: nat, k: nat)
    requires |e| == 4 && forall x :: x in e ==> x.key.TextKey?
    requires Before(e[0].key.text, e[1].key.text, i) && Before(e[1].key.text, e[2].key.text, j)
    requires Before(e[2].key.text, e[3].key.text, k)
    requires forall x :: x in e ==> WellKeyed(x.item)
    ensures Meaning(Dict(e)) == Dictionary([MeaningEntry(e[0]), MeaningEntry(e[1]), MeaningEntry(e[2]), MeaningEntry(e[3])])
    ensures WellKeyed(Dict(e))
  {
    hide Before, Ascend, MeaningEntry, MeaningEntries, Meaning, Sort, Sorted, WellKeyed, DistinctKeys, WellKeyedEntries;
    FourAscend(e, i, j, k);
    FourSorted(e);
    FourFields(e);
    FourWellKeyed(e);
    DictMeans(e);
    SortOfSorted(FieldLe, MeaningEntries(e));
  }

  lemma FourOrdered(a: Bytes, b: Bytes, c: Bytes, d: Bytes)
    requires LexLe(a, b) && LexLe(b, c) && LexLe(c, d) && a != b && b != c && c != d
    ensures LexLe(a, c) && LexLe(a, d) && LexLe(b, d) && a != c && a != d && b != d
  {
    hide LexLe;
    LexTransitive(a, b, c);
    LexTransitive(b, c, d);
    LexTransitive(a, b, d);
    LexTotal(a, b);
    LexTotal(b, c);
    LexTotal(c, d);
    LexTotal(a, c);
    LexTotal(b, d);
    LexTotal(a, d);
  }

  lemma FourFields(e: seq<Entry>)
    requires |e| == 4
    ensures MeaningEntries(e) == [MeaningEntry(e[0]), MeaningEntry(e[1]), MeaningEntry(e[2]), MeaningEntry(e[3])]
  {
    hide MeaningEntry;
    assert e[1..][1..] == e[2..] && e[2..][1..] == e[3..] && e[3..][1..] == [];
    assert MeaningEntries(e[3..]) == [MeaningEntry(e[3])];
    assert MeaningEntries(e[2..]) == [MeaningEntry(e[2]), MeaningEntry(e[3])];
    assert MeaningEntries(e[1..]) == [MeaningEntry(e[1]), MeaningEntry(e[2]), MeaningEntry(e[3])];
  }

  lemma FourWellKeyed(e: seq<Entry>)
    requires |e| == 4 && forall x :: x in e ==> WellKeyed(x.item)
    ensures WellKeyedEntries(e)
  {
    hide WellKeyed;
    assert e[1..][1..] == e[2..] && e[2..][1..] == e[3..] && e[3..][1..] == [];
    assert e[0] in e && e[1] in e && e[2] in e && e[3] in e;
    assert WellKeyedEntries(e[3..]);
    assert WellKeyedEntries(e[2..]);
    assert WellKeyedEntries(e[1..]);
  }

  function InfoTree(name: string, data: Bytes, sha1: Digest): Tree
  {
    Dictionary([
      Field(Utf8("length"), Integer(|data|)),
      Field(Utf8("name"), String(Utf8(name))),
      Field(Utf8("piece length"), Integer(262144)),
      Field(Utf8("pieces"), String(Digests(sha1, Pieces(data))))])
  }

  function DocumentTree(name: string, data: Bytes, sha1: Digest, now: int): Tree
  {
    Dictionary([
      Field(Utf8("announce"), String(Utf8("http://fake-indexer:9117/announce"))),
      Field(Utf8("created by"), String(Utf8("pornarr-fake-indexer"))),
      Field(Utf8("creation date"), Integer(now)),
      Field(Utf8("info"), InfoTree(name, data, sha1))])
  }

  lemma KeysAscend()
    ensures Before("length", "name", 0) && Before("name", "piece length", 0) && Before("piece length", "pieces", 5)
    ensures Before("announce", "created by", 0) && Before("created by", "creation date", 5) && Before("creation date", "info", 0)
  {
  }

  lemma InfoMeans(name: string, data: Bytes, sha1: Digest)
    ensures Meaning(Info(name, data, sha1)) == InfoTree(name, data, sha1) && WellKeyed(Info(name, data, sha1))
  {
    hide Utf8, Before, Digests, Pieces;
    KeysAscend();
    FourInOrder(Info(name, data, sha1).entries, 0, 0, 5);
  }

  lemma DocumentMeans(name: string, data: Bytes, sha1: Digest, now: int)
    ensures Meaning(Document(name, data, sha1, now)) == DocumentTree(name, data, sha1, now)
    ensures WellKeyed(Document(name, data, sha1, now))
  {
    InfoMeans(name, data, sha1);
    hide Utf8, Before, Info, InfoTree;
    KeysAscend();
    FourInOrder(Document(name, data, sha1, now).entries, 0, 5, 0);
  }

  /** A reader decodes the fields as they were written, and nothing behind them. */
  lemma TorrentReadsBack(name: string, data: Bytes, sha1: Digest, now: int)
    ensures Parse(BuildTorrent(name, data, sha1, now).0) == Got(DocumentTree(name, data, sha1, now), [])
  {
    hide Parse, Encode, Document, DocumentTree, Meaning;
    DocumentMeans(name, data, sha1, now);
    DecodesIffWellKeyed(Document(name, data, sha1, now), []);
    assert Encode(Document(name, data, sha1, now)) + [] == Encode(Document(name, data, sha1, now));
  }

  /** Every piece can be checked: its digest stands in the torrent at its place. */
  lemma PiecesCanBeChecked(data: Bytes, sha1: Digest, k: nat)
    requires TwentyBytes(sha1) && k * 262144 < |data|
    ensures 20 * (k + 1) <= |Digests(sha1, Pieces(data))|
    ensures Digests(sha1, Pieces(data))[20 * k..20 * (k + 1)]
         == sha1(data[k * 262144..Least((k + 1) * 262144, |data|)])
  {
    PieceIs(data, k);
    hide Pieces;
    DigestIs(sha1, Pieces(data), k);
  }
}
