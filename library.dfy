/**
 * The signed-in user's library in the cloud store: a favourites collection and
 * a reading-history collection per user, each keyed by manga id. Every store
 * call may throw; which one does is decided by a call budget, an oracle that
 * lets the first `budget` calls through and makes the next one throw.
 */
module Library {
  import opened Wrappers

  /** `AppConstants.MAX_READING_HISTORY`. */
  const MaxReadingHistory: nat := 20

  /** `FavoriteManga`; `addedAt` is a timestamp, kept as an ordered number. */
  datatype FavoriteManga = FavoriteManga(
    mangaId: string, title: string, coverUrl: string, slug: string, addedAt: int)

  /** `ReadingHistory`; `readAt` is a timestamp, kept as an ordered number. */
  datatype ReadingHistory = ReadingHistory(
    mangaId: string, title: string, coverUrl: string, slug: string,
    chapterId: string, chapterTitle: string, readAt: int)

  /** The end of a call that can throw: its value, or the exception it propagates. */
  datatype Outcome<T> = Done(value: T) | Thrown

  /** `k` is a history entry with the smallest `readAt`. */
  ghost predicate IsOldest(h: map<string, ReadingHistory>, k: string)
  {
    k in h && forall j :: j in h ==> h[k].readAt <= h[j].readAt
  }

  /**
   * What a complete `addToHistory` does to one user's history `h0`: an
   * existing entry is overwritten; a new one is inserted, after the oldest
   * entry is deleted when there are already `MaxReadingHistory`.
   */
  ghost predicate AddedToHistory(h0: map<string, ReadingHistory>, h: map<string, ReadingHistory>, rec: ReadingHistory)
  {
    if rec.mangaId in h0 || |h0| < MaxReadingHistory then h == h0[rec.mangaId := rec]
    else exists k :: IsOldest(h0, k) && h == (h0 - {k})[rec.mangaId := rec]
  }

  /**
   * What `addToHistory` can leave behind when a store call throws part of the
   * way: nothing changed, the oldest entry deleted without the insertion, or
   * the complete effect.
   */
  ghost predicate HistoryEffect(h0: map<string, ReadingHistory>, h: map<string, ReadingHistory>, rec: ReadingHistory)
  {
    || h == h0
    || AddedToHistory(h0, h, rec)
    || (rec.mangaId !in h0 && |h0| >= MaxReadingHistory && exists k :: IsOldest(h0, k) && h == h0 - {k})
  }

  lemma RemoveSize(h: map<string, ReadingHistory>, k: string)
    requires k in h
    ensures |h - {k}| == |h| - 1
  {
    assert (h - {k}).Keys == h.Keys - {k};
  }

  /**
   * A complete add leaves the record under its id; an existing id keeps the
   * count, a new id adds one below the limit and keeps the count at or above it.
   */
  lemma AddedToHistorySize(h0: map<string, ReadingHistory>, h: map<string, ReadingHistory>, rec: ReadingHistory)
    requires AddedToHistory(h0, h, rec)
    ensures rec.mangaId in h && h[rec.mangaId] == rec
    ensures rec.mangaId in h0 ==> |h| == |h0|
    ensures rec.mangaId !in h0 && |h0| < MaxReadingHistory ==> |h| == |h0| + 1
    ensures rec.mangaId !in h0 && |h0| >= MaxReadingHistory ==> |h| == |h0|
  {
    if rec.mangaId !in h0 && |h0| >= MaxReadingHistory {
      var k :| IsOldest(h0, k) && h == (h0 - {k})[rec.mangaId := rec];
      RemoveSize(h0, k);
    }
  }

  /** Whatever store call throws, the history never grows beyond the larger of its old size and the limit. */
  lemma HistoryEffectSize(h0: map<string, ReadingHistory>, h: map<string, ReadingHistory>, rec: ReadingHistory)
    requires HistoryEffect(h0, h, rec)
    ensures |h| <= if |h0| < MaxReadingHistory then MaxReadingHistory else |h0|
  {
    if h == h0 {
    } else if AddedToHistory(h0, h, rec) {
      AddedToHistorySize(h0, h, rec);
    } else {
      var k :| IsOldest(h0, k) && h == h0 - {k};
      RemoveSize(h0, k);
    }
  }

  /**
   * The query `orderBy("readAt", ASCENDING).limit(1)`: no document for an
   * empty history, otherwise one document with the smallest `readAt`.
   */
  method OldestDocs(h: map<string, ReadingHistory>) returns (docs: seq<string>)
    ensures |docs| <= 1
    ensures docs == [] <==> |h| == 0
    ensures docs != [] ==> IsOldest(h, docs[0])
  {
    var keys := h.Keys;
    docs := [];
    while keys != {}
      invariant keys <= h.Keys
      invariant |docs| <= 1
      invariant docs == [] <==> keys == h.Keys
      invariant docs != [] ==> docs[0] in h
      invariant docs != [] ==> forall j :: j in h.Keys - keys ==> h[docs[0]].readAt <= h[j].readAt
      decreases |keys|
    {
      var k :| k in keys;
      if docs == [] || h[k].readAt < h[docs[0]].readAt {
        docs := [k];
      }
      keys := keys - {k};
    }
  }

  class LibraryRepository {
    /** The signed-in user's id (`auth.currentUser?.uid`). */
    var currentUser: Option<string>
    /** `users/{uid}/favorites/{mangaId}`. */
    var favorites: map<string, map<string, FavoriteManga>>
    /** `users/{uid}/history/{mangaId}`. */
    var history: map<string, map<string, ReadingHistory>>
    /** How many more store calls succeed before one throws. */
    var budget: nat

    /** Every document sits under the id of the manga it records. */
    ghost predicate Valid()
      reads this
    {
      && (forall u, k :: u in favorites && k in favorites[u] ==> favorites[u][k].mangaId == k)
      && (forall u, k :: u in history && k in history[u] ==> history[u][k].mangaId == k)
    }

    constructor(currentUser: Option<string>, budget: nat)
      ensures Valid()
      ensures this.currentUser == currentUser && this.budget == budget
      ensures favorites == map[] && history == map[]
    {
      this.currentUser := currentUser;
      this.budget := budget;
      favorites := map[];
      history := map[];
    }

    function Favorites(uid: string): map<string, FavoriteManga>
      reads this
    {
      if uid in favorites then favorites[uid] else map[]
    }

    function History(uid: string): map<string, ReadingHistory>
      reads this
    {
      if uid in history then history[uid] else map[]
    }

    /** One store call: it goes through while the budget lasts. */
    method Call() returns (ok: bool)
      modifies this
      ensures ok <==> old(budget) > 0
      ensures budget == if ok then old(budget) - 1 else old(budget)
      ensures currentUser == old(currentUser) && favorites == old(favorites) && history == old(history)
    {
      ok := budget > 0;
      if ok {
        budget := budget - 1;
      }
    }

    /** `addFavorite`: nothing without a user; otherwise the record is set under its id. */
    method AddFavorite(manga: FavoriteManga) returns (r: Outcome<()>)
      requires Valid()
      modifies this
      ensures Valid()
      ensures currentUser == old(currentUser) && history == old(history)
      ensures old(currentUser).None? ==> r == Done(()) && favorites == old(favorites)
      ensures old(currentUser).Some? && old(budget) > 0 ==>
        r == Done(()) && favorites == old(favorites)[old(currentUser).value :=
          old(Favorites(currentUser.value))[manga.mangaId := manga]]
      ensures old(currentUser).Some? && old(budget) == 0 ==> r == Thrown && favorites == old(favorites)
    {
      if currentUser.None? {
        return Done(());
      }
      var uid := currentUser.value;
      var ok := Call();
      if !ok {
        return Thrown;
      }
      favorites := favorites[uid := Favorites(uid)[manga.mangaId := manga]];
      r := Done(());
    }

    /** `removeFavorite`: nothing without a user; otherwise the document of the id is deleted. */
    method RemoveFavorite(mangaId: string) returns (r: Outcome<()>)
      requires Valid()
      modifies this
      ensures Valid()
      ensures currentUser == old(currentUser) && history == old(history)
      ensures old(currentUser).None? ==> r == Done(()) && favorites == old(favorites)
      ensures old(currentUser).Some? && old(budget) > 0 ==>
        r == Done(()) && favorites == old(favorites)[old(currentUser).value :=
          old(Favorites(currentUser.value)) - {mangaId}]
      ensures old(currentUser).Some? && old(budget) == 0 ==> r == Thrown && favorites == old(favorites)
    {
      if currentUser.None? {
        return Done(());
      }
      var uid := currentUser.value;
      var ok := Call();
      if !ok {
        return Thrown;
      }
      favorites := favorites[uid := Favorites(uid) - {mangaId}];
      r := Done(());
    }

    /** `isFavorite`: false without a user; otherwise whether the id's document exists. */
    method IsFavorite(mangaId: string) returns (r: Outcome<bool>)
      modifies this
      ensures currentUser == old(currentUser) && favorites == old(favorites) && history == old(history)
      ensures currentUser.None? ==> r == Done(false)
      ensures currentUser.Some? && old(budget) > 0 ==> r == Done(mangaId in Favorites(currentUser.value))
      ensures currentUser.Some? && old(budget) == 0 ==> r == Thrown
    {
      if currentUser.None? {
        return Done(false);
      }
      var ok := Call();
      if !ok {
        return Thrown;
      }
      r := Done(mangaId in Favorites(currentUser.value));
    }

    /** `document(rec.mangaId).set(rec)` in the user's history. */
    method PutHistory(uid: string, rec: ReadingHistory)
      requires Valid()
      modifies this
      ensures Valid()
      ensures currentUser == old(currentUser) && favorites == old(favorites) && budget == old(budget)
      ensures History(uid) == old(History(uid))[rec.mangaId := rec]
      ensures forall u :: u != uid ==> History(u) == old(History(u))
    {
      history := history[uid := History(uid)[rec.mangaId := rec]];
    }

    /** `doc.reference.delete()` in the user's history. */
    method DeleteHistory(uid: string, k: string)
      requires Valid()
      modifies this
      ensures Valid()
      ensures currentUser == old(currentUser) && favorites == old(favorites) && budget == old(budget)
      ensures History(uid) == old(History(uid)) - {k}
      ensures forall u :: u != uid ==> History(u) == old(History(u))
    {
      history := history[uid := History(uid) - {k}];
    }

    /**
     * `addToHistory`: with a user, overwrite an existing entry, or insert a new
     * one after deleting the oldest when the history is full. A store call
     * that throws ends the operation quietly.
     */
    method AddToHistory(rec: ReadingHistory)
      requires Valid()
      modifies this
      ensures Valid()
      ensures currentUser == old(currentUser) && favorites == old(favorites)
      ensures old(currentUser).None? ==> history == old(history) && budget == old(budget)
      ensures old(currentUser).Some? ==>
        var uid := old(currentUser).value;
        && HistoryEffect(old(History(uid)), History(uid), rec)
        && (old(budget) >= 5 ==> AddedToHistory(old(History(uid)), History(uid), rec))
        && (rec.mangaId in old(History(uid)) && old(budget) >= 2 ==>
              AddedToHistory(old(History(uid)), History(uid), rec))
        && (rec.mangaId !in old(History(uid)) && |old(History(uid))| < MaxReadingHistory && old(budget) >= 3 ==>
              AddedToHistory(old(History(uid)), History(uid), rec))
        && (forall u :: u != uid ==> History(u) == old(History(u)))
    {
      if currentUser.None? {
        return;
      }
      var uid := currentUser.value;
      var ok := Call();
      if !ok {
        return;
      }
      if rec.mangaId in History(uid) {
        ok := Call();
        if ok {
          PutHistory(uid, rec);
        }
        return;
      }
      ok := Call();
      if !ok {
        return;
      }
      if |History(uid)| >= MaxReadingHistory {
        AddNewToFullHistory(uid, rec);
      } else {
        ok := Call();
        if ok {
          PutHistory(uid, rec);
        }
      }
    }

    /** The branch of `addToHistory` for a new id when the history is full. */
    method AddNewToFullHistory(uid: string, rec: ReadingHistory)
      requires Valid()
      requires rec.mangaId !in History(uid) && |History(uid)| >= MaxReadingHistory
      modifies this
      ensures Valid()
      ensures currentUser == old(currentUser) && favorites == old(favorites)
      ensures HistoryEffect(old(History(uid)), History(uid), rec)
      ensures old(budget) >= 3 ==> AddedToHistory(old(History(uid)), History(uid), rec)
      ensures forall u :: u != uid ==> History(u) == old(History(u))
    {
      ghost var h0 := History(uid);
      var ok := Call();
      if !ok {
        return;
      }
      var oldest := OldestDocs(History(uid));
      ghost var k := oldest[0];
      var i := 0;
      while i < |oldest|
        invariant 0 <= i <= |oldest|
        invariant currentUser == old(currentUser) && favorites == old(favorites) && Valid()
        invariant forall u :: u != uid ==> History(u) == old(History(u))
        invariant History(uid) == if i == 0 then h0 else h0 - {k}
        invariant budget + 1 + i >= old(budget)
      {
        ok := Call();
        if !ok {
          assert i == 0;
          return;
        }
        DeleteHistory(uid, oldest[i]);
        i := i + 1;
      }
      ok := Call();
      if !ok {
        assert IsOldest(h0, k) && History(uid) == h0 - {k};
        return;
      }
      PutHistory(uid, rec);
      assert IsOldest(h0, k) && History(uid) == (h0 - {k})[rec.mangaId := rec];
    }
  }
}
