/**
 * The list rewrites of the user document store: the favourites list that is
 * appended to when an id is absent and loses the first occurrence of an id on
 * removal, the most-recently-read history capped at twenty entries, and the
 * tolerant reading of stored history records. Each rewrite runs inside a
 * transaction that reads the user document and then updates one field.
 */
module UserLists {
  import opened Wrappers

  /** `AppConstants.MAX_READING_HISTORY`. */
  const MaxReadingHistory: nat := 20
  const FavoritesField: string := "favorites"
  const HistoryField: string := "history"

  /** A stored document value: the shapes the rewrites look at, and everything else. */
  datatype Value =
    | Str(s: string)
    | Long(n: int)
    | List(items: seq<Value>)
    | Map(entries: map<string, Value>)
    | Other

  /** `mapNotNull { it as? String }`: the string items, in order. */
  function StringItems(items: seq<Value>): (r: seq<string>)
    ensures |r| <= |items|
    ensures forall s :: s in r <==> Str(s) in items
  {
    if items == [] then []
    else (if items[0].Str? then [items[0].s] else []) + StringItems(items[1..])
  }

  /** `mapNotNull { it as? Map<String, Any> }`: the map items, in order. */
  function MapItems(items: seq<Value>): (r: seq<map<string, Value>>)
    ensures |r| <= |items|
    ensures forall m :: m in r <==> Map(m) in items
  {
    if items == [] then []
    else (if items[0].Map? then [items[0].entries] else []) + MapItems(items[1..])
  }

  /** `(v as? List<*>)?.mapNotNull { it as? String } ?: emptyList()`. */
  function AsStringList(v: Option<Value>): (r: seq<string>)
    ensures !(v.Some? && v.value.List?) ==> r == []
  {
    match v
    case Some(List(items)) => StringItems(items)
    case _ => []
  }

  /** `(v as? List<*>)?.mapNotNull { it as? Map<String, Any> } ?: emptyList()`. */
  function AsMapList(v: Option<Value>): (r: seq<map<string, Value>>)
    ensures !(v.Some? && v.value.List?) ==> r == []
  {
    match v
    case Some(List(items)) => MapItems(items)
    case _ => []
  }

  /** The string items of a concatenation are those of each part, in order. */
  lemma {:induction false} StringItemsAppend(a: seq<Value>, b: seq<Value>)
    ensures StringItems(a + b) == StringItems(a) + StringItems(b)
  {
    if a != [] {
      assert (a + b)[1..] == a[1..] + b;
      StringItemsAppend(a[1..], b);
    } else {
      assert a + b == b;
    }
  }

  /** Items that are not strings are dropped. */
  lemma {:induction false} StringItemsOfOthers(items: seq<Value>)
    requires forall i :: 0 <= i < |items| ==> !items[i].Str?
    ensures StringItems(items) == []
  {
    if items != [] {
      StringItemsOfOthers(items[1..]);
    }
  }

  /** The map items of a concatenation are those of each part, in order. */
  lemma {:induction false} MapItemsAppend(a: seq<Value>, b: seq<Value>)
    ensures MapItems(a + b) == MapItems(a) + MapItems(b)
  {
    if a != [] {
      assert (a + b)[1..] == a[1..] + b;
      MapItemsAppend(a[1..], b);
    } else {
      assert a + b == b;
    }
  }

  /** Items that are not maps are dropped. */
  lemma {:induction false} MapItemsOfOthers(items: seq<Value>)
    requires forall i :: 0 <= i < |items| ==> !items[i].Map?
    ensures MapItems(items) == []
  {
    if items != [] {
      MapItemsOfOthers(items[1..]);
    }
  }

  /** A list of strings as stored. */
  function StringsValue(xs: seq<string>): Value
  {
    List(seq(|xs|, i requires 0 <= i < |xs| => Str(xs[i])))
  }

  /** A list of maps as stored. */
  function MapsValue(ms: seq<map<string, Value>>): Value
  {
    List(seq(|ms|, i requires 0 <= i < |ms| => Map(ms[i])))
  }

  lemma {:induction false} StringItemsOfStrings(xs: seq<string>)
    ensures StringItems(StringsValue(xs).items) == xs
  {
    var items := StringsValue(xs).items;
    if xs != [] {
      assert items[1..] == StringsValue(xs[1..]).items;
      StringItemsOfStrings(xs[1..]);
    }
  }

  lemma {:induction false} MapItemsOfMaps(ms: seq<map<string, Value>>)
    ensures MapItems(MapsValue(ms).items) == ms
  {
    var items := MapsValue(ms).items;
    if ms != [] {
      assert items[1..] == MapsValue(ms[1..]).items;
      MapItemsOfMaps(ms[1..]);
    }
  }

  // ---------------------------------------------------------------------------
  // Favourites

  /** The favourites after `addFavoriteManga`: the id is appended unless it is already there. */
  function AppendIfAbsent(favorites: seq<string>, mangaId: string): (r: seq<string>)
    ensures favorites <= r && |r| <= |favorites| + 1
    ensures mangaId in r
    ensures r == favorites <==> mangaId in favorites
  {
    if mangaId in favorites then favorites else favorites + [mangaId]
  }

  /** Adding the same favourite twice is the same as adding it once. */
  lemma AppendIfAbsentIdempotent(favorites: seq<string>, mangaId: string)
    ensures AppendIfAbsent(AppendIfAbsent(favorites, mangaId), mangaId)
         == AppendIfAbsent(favorites, mangaId)
  {
  }

  /** The index of the first occurrence of `x` in `xs`. */
  function FirstIndex(xs: seq<string>, x: string): (k: nat)
    requires x in xs
    ensures k < |xs| && xs[k] == x && x !in xs[..k]
  {
    if xs[0] == x then 0
    else
      assert xs[1..][..FirstIndex(xs[1..], x)] == xs[1..FirstIndex(xs[1..], x) + 1];
      1 + FirstIndex(xs[1..], x)
  }

  /** Removing the first occurrence from the tail of a list whose head is another id. */
  lemma MinusStep(xs: seq<string>, x: string)
    requires xs != [] && xs[0] != x && x in xs[1..]
    ensures FirstIndex(xs, x) == FirstIndex(xs[1..], x) + 1
    ensures var tail := xs[1..]; var k := FirstIndex(tail, x);
            [xs[0]] + (tail[..k] + tail[k + 1..]) == xs[..k + 1] + xs[k + 2..]
  {
    var tail := xs[1..];
    var k := FirstIndex(tail, x);
    assert [xs[0]] + tail[..k] == xs[..k + 1];
    assert tail[k + 1..] == xs[k + 2..];
  }

  /** Kotlin's `List.minus(element)`: the list without the first occurrence of the element. */
  function Minus(xs: seq<string>, x: string): (r: seq<string>)
    ensures x !in xs ==> r == xs
    ensures x in xs ==> var k := FirstIndex(xs, x); r == xs[..k] + xs[k + 1..]
  {
    if xs == [] then []
    else if xs[0] == x then xs[1..]
    else if x in xs[1..] then
      MinusStep(xs, x);
      [xs[0]] + Minus(xs[1..], x)
    else
      assert xs == [xs[0]] + xs[1..];
      [xs[0]] + Minus(xs[1..], x)
  }

  /** Removal takes away exactly one copy of a present id and nothing else. */
  lemma MinusMultiset(xs: seq<string>, x: string)
    ensures x in xs ==> multiset(Minus(xs, x)) == multiset(xs) - multiset{x}
  {
    if x in xs {
      var k := FirstIndex(xs, x);
      assert xs == xs[..k] + [x] + xs[k + 1..];
    }
  }

  /** Removing a favourite just added restores the list. */
  lemma RemoveAfterAdd(favorites: seq<string>, mangaId: string)
    requires mangaId !in favorites
    ensures Minus(AppendIfAbsent(favorites, mangaId), mangaId) == favorites
  {
    var ys := favorites + [mangaId];
    assert ys[..|favorites|] == favorites;
  }

  // ---------------------------------------------------------------------------
  // Reading history

  /** One history record as the history list stores it; `lastReadAt` is a clock reading. */
  datatype HistoryRecord = HistoryRecord(
    mangaId: string,
    mangaTitle: string,
    chapterId: string,
    chapterTitle: string,
    lastReadAt: int)

  /** The stored form of a record: one map with the five keys. */
  function HistoryEntry(r: HistoryRecord): map<string, Value>
  {
    map["mangaId" := Str(r.mangaId), "mangaTitle" := Str(r.mangaTitle),
        "chapterId" := Str(r.chapterId), "chapterTitle" := Str(r.chapterTitle),
        "lastReadAt" := Long(r.lastReadAt)]
  }

  /** `it["mangaId"] as? String`. */
  function MangaIdOf(entry: map<string, Value>): Option<string>
  {
    if "mangaId" in entry && entry["mangaId"].Str? then Some(entry["mangaId"].s) else None
  }

  /** `filterNot { (it["mangaId"] as? String) == mangaId }`. */
  function WithoutManga(history: seq<map<string, Value>>, mangaId: string): (r: seq<map<string, Value>>)
    ensures |r| <= |history|
    ensures forall e :: e in r <==> e in history && MangaIdOf(e) != Some(mangaId)
  {
    if history == [] then []
    else
      var head := if MangaIdOf(history[0]) == Some(mangaId) then [] else [history[0]];
      head + WithoutManga(history[1..], mangaId)
  }

  /** The entries of one manga, in list order. */
  function EntriesOf(history: seq<map<string, Value>>, mangaId: string): seq<map<string, Value>>
  {
    if history == [] then []
    else
      var head := if MangaIdOf(history[0]) == Some(mangaId) then [history[0]] else [];
      head + EntriesOf(history[1..], mangaId)
  }

  /** `take(n)`. */
  function Take<T>(xs: seq<T>, n: nat): (r: seq<T>)
    ensures |r| == if |xs| <= n then |xs| else n
    ensures r <= xs
  {
    if |xs| <= n then xs else xs[..n]
  }

  /**
   * The history after `saveReadingHistory`: the new entry first, then the old
   * entries of other manga, cut to `MaxReadingHistory`.
   */
  function RewriteHistory(history: seq<map<string, Value>>, record: HistoryRecord): (r: seq<map<string, Value>>)
    ensures 1 <= |r| <= MaxReadingHistory
    ensures r[0] == HistoryEntry(record)
    ensures r[1..] <= WithoutManga(history, record.mangaId)
    ensures |r| == if 1 + |WithoutManga(history, record.mangaId)| <= MaxReadingHistory
                   then 1 + |WithoutManga(history, record.mangaId)| else MaxReadingHistory
  {
    var filtered := WithoutManga(history, record.mangaId);
    var r := Take([HistoryEntry(record)] + filtered, MaxReadingHistory);
    assert r[1..] <= filtered;
    r
  }

  /** A prefix of a list holds a prefix of each manga's entries. */
  lemma {:induction false} EntriesOfPrefix(p: seq<map<string, Value>>, h: seq<map<string, Value>>, mangaId: string)
    requires p <= h
    ensures EntriesOf(p, mangaId) <= EntriesOf(h, mangaId)
  {
    if p != [] {
      assert p[1..] <= h[1..];
      EntriesOfPrefix(p[1..], h[1..], mangaId);
    }
  }

  lemma {:induction false} WithoutMangaKeepsOthers(h: seq<map<string, Value>>, mangaId: string, other: string)
    requires other != mangaId
    ensures EntriesOf(WithoutManga(h, mangaId), other) == EntriesOf(h, other)
  {
    if h != [] {
      WithoutMangaKeepsOthers(h[1..], mangaId, other);
      var w := WithoutManga(h, mangaId);
      if MangaIdOf(h[0]) != Some(mangaId) {
        assert w == [h[0]] + WithoutManga(h[1..], mangaId);
        assert w[1..] == WithoutManga(h[1..], mangaId);
      } else {
        assert w == WithoutManga(h[1..], mangaId);
        assert EntriesOf(h, other) == EntriesOf(h[1..], other);
      }
    }
  }

  /** After a save the manga has exactly one entry, the new one, at the head. */
  lemma RewriteHistoryUnique(history: seq<map<string, Value>>, record: HistoryRecord)
    ensures EntriesOf(RewriteHistory(history, record), record.mangaId) == [HistoryEntry(record)]
  {
    var r := RewriteHistory(history, record);
    var filtered := WithoutManga(history, record.mangaId);
    EntriesOfPrefix(r[1..], filtered, record.mangaId);
    NoEntriesOf(filtered, record.mangaId);
    assert MangaIdOf(r[0]) == Some(record.mangaId);
    assert r == [r[0]] + r[1..];
  }

  lemma {:induction false} NoEntriesOf(h: seq<map<string, Value>>, mangaId: string)
    requires forall e :: e in h ==> MangaIdOf(e) != Some(mangaId)
    ensures EntriesOf(h, mangaId) == []
  {
    if h != [] {
      assert h[0] in h;
      NoEntriesOf(h[1..], mangaId);
    }
  }

  /**
   * The entries of every other manga keep their relative order; a save can
   * only drop some of them from the end.
   */
  lemma RewriteHistoryKeepsOthers(history: seq<map<string, Value>>, record: HistoryRecord, other: string)
    requires other != record.mangaId
    ensures EntriesOf(RewriteHistory(history, record), other) <= EntriesOf(history, other)
  {
    var r := RewriteHistory(history, record);
    var filtered := WithoutManga(history, record.mangaId);
    EntriesOfPrefix(r[1..], filtered, other);
    WithoutMangaKeepsOthers(history, record.mangaId, other);
    assert r == [r[0]] + r[1..];
    assert MangaIdOf(r[0]) == Some(record.mangaId);
  }

  /** The entry holds a string under `key`. */
  predicate IsString(entry: map<string, Value>, key: string)
  {
    key in entry && entry[key].Str?
  }

  /** `item["key"] as? String ?: ""`. */
  function StringField(entry: map<string, Value>, key: string): (r: string)
    ensures key in entry && entry[key].Str? ==> r == entry[key].s
    ensures !(key in entry && entry[key].Str?) ==> r == ""
  {
    if key in entry && entry[key].Str? then entry[key].s else ""
  }

  /** One map item of `parseReadingHistory`; `now` stands for the clock reading used when `lastReadAt` is not a long. */
  function ParseEntry(entry: map<string, Value>, now: int): (r: HistoryRecord)
    ensures IsString(entry, "mangaId") ==> r.mangaId == entry["mangaId"].s
    ensures !IsString(entry, "mangaId") ==> r.mangaId == ""
    ensures IsString(entry, "mangaTitle") ==> r.mangaTitle == entry["mangaTitle"].s
    ensures !IsString(entry, "mangaTitle") ==> r.mangaTitle == ""
    ensures IsString(entry, "chapterId") ==> r.chapterId == entry["chapterId"].s
    ensures !IsString(entry, "chapterId") ==> r.chapterId == ""
    ensures IsString(entry, "chapterTitle") ==> r.chapterTitle == entry["chapterTitle"].s
    ensures !IsString(entry, "chapterTitle") ==> r.chapterTitle == ""
    ensures "lastReadAt" in entry && entry["lastReadAt"].Long? ==> r.lastReadAt == entry["lastReadAt"].n
    ensures !("lastReadAt" in entry && entry["lastReadAt"].Long?) ==> r.lastReadAt == now
  {
    HistoryRecord(
      StringField(entry, "mangaId"), StringField(entry, "mangaTitle"),
      StringField(entry, "chapterId"), StringField(entry, "chapterTitle"),
      if "lastReadAt" in entry && entry["lastReadAt"].Long? then entry["lastReadAt"].n else now)
  }

  function ParseEntries(entries: seq<map<string, Value>>, now: int): (r: seq<HistoryRecord>)
    ensures |r| == |entries|
    ensures forall i :: 0 <= i < |r| ==> r[i] == ParseEntry(entries[i], now)
  {
    if entries == [] then [] else [ParseEntry(entries[0], now)] + ParseEntries(entries[1..], now)
  }

  /**
   * `parseReadingHistory`: empty unless the value is a list; otherwise one
   * record per map item, in order, with other items dropped.
   */
  function ParseReadingHistory(data: Option<Value>, now: int): (r: seq<HistoryRecord>)
    ensures !(data.Some? && data.value.List?) ==> r == []
    ensures |r| == |AsMapList(data)|
  {
    ParseEntries(AsMapList(data), now)
  }

  /** A stored record reads back as itself. */
  lemma ParseEntryOfHistoryEntry(record: HistoryRecord, now: int)
    ensures ParseEntry(HistoryEntry(record), now) == record
  {
  }

  /** After a save, reading the history back puts the saved record first. */
  lemma SavedHistoryReadsBack(history: seq<map<string, Value>>, record: HistoryRecord, now: int)
    ensures var parsed := ParseReadingHistory(Some(MapsValue(RewriteHistory(history, record))), now);
            |parsed| >= 1 && parsed[0] == record
  {
    MapItemsOfMaps(RewriteHistory(history, record));
    ParseEntryOfHistoryEntry(record, now);
  }

  // ---------------------------------------------------------------------------
  // The user documents and the transactions over them

  datatype Outcome = Ok | Failed

  /** The `users` collection: user id to document fields. */
  class UserDocuments {
    var documents: map<string, map<string, Value>>

    constructor(documents: map<string, map<string, Value>>)
      ensures this.documents == documents
    {
      this.documents := documents;
    }

    /** `snapshot.get(field)`: absent when the document or the field is. */
    function Field(uid: string, field: string): (r: Option<Value>)
      reads this
      ensures r.Some? ==> uid in documents && field in documents[uid]
    {
      if uid in documents && field in documents[uid] then Some(documents[uid][field]) else None
    }

    /** `transaction.update`: fails, and changes nothing, when the document does not exist. */
    method Update(uid: string, field: string, v: Value) returns (r: Outcome)
      modifies this
      ensures uid in old(documents) ==>
        r == Ok && documents == old(documents)[uid := old(documents)[uid][field := v]]
      ensures uid !in old(documents) ==> r == Failed && documents == old(documents)
    {
      if uid in documents {
        documents := documents[uid := documents[uid][field := v]];
        r := Ok;
      } else {
        r := Failed;
      }
    }

    /** `addFavoriteManga`: updates the field only when the id is not yet a favourite. */
    method AddFavoriteManga(uid: string, mangaId: string) returns (r: Outcome)
      modifies this
      ensures var current := AsStringList(old(Field(uid, FavoritesField)));
              && (mangaId in current ==> r == Ok && documents == old(documents))
              && (mangaId !in current && uid in old(documents) ==>
                    r == Ok && documents == old(documents)[uid :=
                      old(documents)[uid][FavoritesField := StringsValue(AppendIfAbsent(current, mangaId))]])
              && (uid !in old(documents) ==> r == Failed && documents == old(documents))
    {
      var current := AsStringList(Field(uid, FavoritesField));
      if mangaId !in current {
        r := Update(uid, FavoritesField, StringsValue(current + [mangaId]));
      } else {
        r := Ok;
      }
    }

    /** `removeFavoriteManga`: always writes back the list without the id's first occurrence. */
    method RemoveFavoriteManga(uid: string, mangaId: string) returns (r: Outcome)
      modifies this
      ensures var current := AsStringList(old(Field(uid, FavoritesField)));
              && (uid in old(documents) ==>
                    r == Ok && documents == old(documents)[uid :=
                      old(documents)[uid][FavoritesField := StringsValue(Minus(current, mangaId))]])
              && (uid !in old(documents) ==> r == Failed && documents == old(documents))
    {
      var current := AsStringList(Field(uid, FavoritesField));
      r := Update(uid, FavoritesField, StringsValue(Minus(current, mangaId)));
    }

    /** `saveReadingHistory`: writes the rewritten history back. */
    method SaveReadingHistory(uid: string, record: HistoryRecord) returns (r: Outcome)
      modifies this
      ensures var current := AsMapList(old(Field(uid, HistoryField)));
              && (uid in old(documents) ==>
                    r == Ok && documents == old(documents)[uid :=
                      old(documents)[uid][HistoryField := MapsValue(RewriteHistory(current, record))]])
              && (uid !in old(documents) ==> r == Failed && documents == old(documents))
    {
      var current := AsMapList(Field(uid, HistoryField));
      var filtered := WithoutManga(current, record.mangaId);
      var newHistory := Take([HistoryEntry(record)] + filtered, MaxReadingHistory);
      r := Update(uid, HistoryField, MapsValue(newHistory));
    }
  }

  /** What a successful add leaves in the document: the favourites read back contain the id. */
  lemma FavoritesReadBack(xs: seq<string>)
    ensures AsStringList(Some(StringsValue(xs))) == xs
  {
    StringItemsOfStrings(xs);
  }
}
