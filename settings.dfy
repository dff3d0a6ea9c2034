/**
 * The storage screen's state holder: the downloaded manga list, the manga
 * that is open, the set of selected ids (manga ids when no manga is open,
 * chapter ids when one is), and the theme mode; with the operations that
 * select, clear, refresh and delete.
 */
module Settings {
  import opened Wrappers
  import Downloads

  const DefaultThemeMode: string := "system"

  datatype MangaAndChapters = MangaAndChapters(
    manga: Downloads.DownloadedManga, chapters: seq<Downloads.DownloadedChapter>)

  datatype SettingsUiState = SettingsUiState(
    downloadedManga: seq<MangaAndChapters>,
    isLoading: bool,
    selectedManga: Option<MangaAndChapters>,
    selectedItems: set<string>,
    themeMode: string)

  const InitialState: SettingsUiState := SettingsUiState([], false, None, {}, DefaultThemeMode)

  /** The theme preference store. */
  class SettingsRepository {
    var stored: Option<string>

    constructor(stored: Option<string>)
      ensures this.stored == stored
    {
      this.stored := stored;
    }

    /** `themeMode`: the stored mode, or "system" when none is stored. */
    function ThemeMode(): (r: string)
      reads this
      ensures stored.None? ==> r == DefaultThemeMode
      ensures stored.Some? ==> r == stored.value
    {
      stored.GetOr(DefaultThemeMode)
    }

    /** `setThemeMode`: the mode is stored and read back from then on. */
    method SetThemeMode(mode: string)
      modifies this
      ensures stored == Some(mode) && ThemeMode() == mode
    {
      stored := Some(mode);
    }
  }

  /** The selection after `toggleSelection(id)`. */
  function Toggled(s: set<string>, id: string): (r: set<string>)
    ensures id in r <==> id !in s
    ensures forall x :: x != id ==> (x in r <==> x in s)
  {
    if id in s then s - {id} else s + {id}
  }

  /** Toggling twice restores the selection. */
  lemma ToggledTwice(s: set<string>, id: string)
    ensures Toggled(Toggled(s, id), id) == s
  {
    var t := Toggled(Toggled(s, id), id);
    assert forall x :: x in t <==> x in s;
  }

  /** No entry before `i` is the manga `mangaId`. */
  ghost predicate NoneBefore(list: seq<MangaAndChapters>, mangaId: string, i: int)
    requires 0 <= i <= |list|
  {
    forall j :: 0 <= j < i ==> list[j].manga.mangaId != mangaId
  }

  /** The position of the first entry of the manga `mangaId`; `|list|` when there is none. */
  function FirstPosition(list: seq<MangaAndChapters>, mangaId: string): (k: nat)
    ensures k <= |list| && NoneBefore(list, mangaId, k)
    ensures k < |list| ==> list[k].manga.mangaId == mangaId
  {
    if list == [] || list[0].manga.mangaId == mangaId then 0
    else 1 + FirstPosition(list[1..], mangaId)
  }

  /** `find { it.manga.mangaId == mangaId }`: the first entry of that manga. */
  function FindManga(list: seq<MangaAndChapters>, mangaId: string): (r: Option<MangaAndChapters>)
    ensures r.None? <==> NoneBefore(list, mangaId, |list|)
    ensures r.Some? ==> exists i :: 0 <= i < |list| && list[i] == r.value
                                  && r.value.manga.mangaId == mangaId && NoneBefore(list, mangaId, i)
  {
    var k := FirstPosition(list, mangaId);
    if k < |list| then Some(list[k]) else None
  }

  /** The manga ids of a list of entries. */
  function MangaIds(list: seq<MangaAndChapters>): set<string>
  {
    set i | 0 <= i < |list| :: list[i].manga.mangaId
  }

  /** The chapter ids of a list of chapter rows. */
  function ChapterIds(list: seq<Downloads.DownloadedChapter>): set<string>
  {
    set i | 0 <= i < |list| :: list[i].chapterId
  }

  /** `filter { it.manga.mangaId in ids }`. */
  function SelectedEntries(list: seq<MangaAndChapters>, ids: set<string>): (r: seq<MangaAndChapters>)
    ensures forall m :: m in r <==> m in list && m.manga.mangaId in ids
  {
    if list == [] then []
    else (if list[0].manga.mangaId in ids then [list[0]] else []) + SelectedEntries(list[1..], ids)
  }

  /** `filter { it.chapterId in ids }`. */
  function SelectedChapters(list: seq<Downloads.DownloadedChapter>, ids: set<string>): (r: seq<Downloads.DownloadedChapter>)
    ensures forall c :: c in r <==> c in list && c.chapterId in ids
  {
    if list == [] then []
    else (if list[0].chapterId in ids then [list[0]] else []) + SelectedChapters(list[1..], ids)
  }

  /** The entries picked for deletion are exactly the listed manga whose id is selected. */
  lemma SelectedEntriesIds(list: seq<MangaAndChapters>, ids: set<string>)
    ensures MangaIds(SelectedEntries(list, ids)) == MangaIds(list) * ids
  {
    var r := SelectedEntries(list, ids);
    forall x | x in MangaIds(list) * ids ensures x in MangaIds(r) {
      var i :| 0 <= i < |list| && list[i].manga.mangaId == x;
      assert list[i] in r;
      var k :| 0 <= k < |r| && r[k] == list[i];
    }
    forall x | x in MangaIds(r) ensures x in MangaIds(list) * ids {
      var k :| 0 <= k < |r| && r[k].manga.mangaId == x;
      assert r[k] in list;
      var i :| 0 <= i < |list| && list[i] == r[k];
    }
  }

  /** The chapters picked for deletion are exactly the open manga's chapters whose id is selected. */
  lemma SelectedChaptersIds(list: seq<Downloads.DownloadedChapter>, ids: set<string>)
    ensures ChapterIds(SelectedChapters(list, ids)) == ChapterIds(list) * ids
  {
    var r := SelectedChapters(list, ids);
    forall x | x in ChapterIds(list) * ids ensures x in ChapterIds(r) {
      var i :| 0 <= i < |list| && list[i].chapterId == x;
      assert list[i] in r;
      var k :| 0 <= k < |r| && r[k] == list[i];
    }
    forall x | x in ChapterIds(r) ensures x in ChapterIds(list) * ids {
      var k :| 0 <= k < |r| && r[k].chapterId == x;
      assert r[k] in list;
      var i :| 0 <= i < |list| && list[i] == r[k];
    }
  }

  lemma MangaIdsSnoc(list: seq<MangaAndChapters>, i: int)
    requires 0 <= i < |list|
    ensures MangaIds(list[..i + 1]) == MangaIds(list[..i]) + {list[i].manga.mangaId}
  {
    var a := list[..i];
    var b := list[..i + 1];
    forall x | x in MangaIds(a) ensures x in MangaIds(b) {
      var k :| 0 <= k < |a| && a[k].manga.mangaId == x;
      assert b[k] == a[k];
    }
    assert b[i] == list[i];
  }

  lemma ChapterIdsSnoc(list: seq<Downloads.DownloadedChapter>, i: int)
    requires 0 <= i < |list|
    ensures ChapterIds(list[..i + 1]) == ChapterIds(list[..i]) + {list[i].chapterId}
  {
    var a := list[..i];
    var b := list[..i + 1];
    forall x | x in ChapterIds(a) ensures x in ChapterIds(b) {
      var k :| 0 <= k < |a| && a[k].chapterId == x;
      assert b[k] == a[k];
    }
    assert b[i] == list[i];
  }

  /** The chapter rows that do not belong to any of the manga `ids`. */
  ghost function ChaptersOutside(db: map<string, Downloads.DownloadedChapter>, ids: set<string>): map<string, Downloads.DownloadedChapter>
  {
    map k | k in db && db[k].mangaId !in ids :: db[k]
  }

  /** The (manga id, chapter id) pairs of a list of chapter rows. */
  function ChapterKeys(list: seq<Downloads.DownloadedChapter>): set<(string, string)>
  {
    set i | 0 <= i < |list| :: (list[i].mangaId, list[i].chapterId)
  }

  lemma ChapterKeysSnoc(list: seq<Downloads.DownloadedChapter>, i: int)
    requires 0 <= i < |list|
    ensures ChapterKeys(list[..i + 1]) == ChapterKeys(list[..i]) + {(list[i].mangaId, list[i].chapterId)}
  {
    var a := list[..i];
    var b := list[..i + 1];
    forall x | x in ChapterKeys(a) ensures x in ChapterKeys(b) {
      var k :| 0 <= k < |a| && (a[k].mangaId, a[k].chapterId) == x;
      assert b[k] == a[k];
    }
    assert b[i] == list[i];
  }

  /** The page files that do not belong to any of the manga `ids`. */
  ghost function FilesOutside(files: set<Downloads.PageFile>, ids: set<string>): set<Downloads.PageFile>
  {
    set p | p in files && p.mangaId !in ids
  }

  /** The page files that do not belong to any of the chapters `keys`. */
  ghost function FilesOutsideChapters(files: set<Downloads.PageFile>, keys: set<(string, string)>): set<Downloads.PageFile>
  {
    set p | p in files && (p.mangaId, p.chapterId) !in keys
  }

  class SettingsViewModel {
    var uiState: SettingsUiState
    var downloadRepository: Downloads.DownloadRepository?
    var settingsRepository: SettingsRepository?

    constructor(downloadRepository: Downloads.DownloadRepository?, settingsRepository: SettingsRepository?)
      ensures uiState == InitialState
      ensures this.downloadRepository == downloadRepository && this.settingsRepository == settingsRepository
    {
      uiState := InitialState;
      this.downloadRepository := downloadRepository;
      this.settingsRepository := settingsRepository;
    }

    /**
     * `init`: each repository is taken only if none is set yet; taking the
     * download repository starts loading the list.
     */
    method Init(downloadRepo: Downloads.DownloadRepository, settingsRepo: SettingsRepository)
      modifies this
      ensures downloadRepository == if old(downloadRepository) == null then downloadRepo else old(downloadRepository)
      ensures settingsRepository == if old(settingsRepository) == null then settingsRepo else old(settingsRepository)
      ensures uiState == old(uiState).(isLoading := old(uiState).isLoading || old(downloadRepository) == null)
    {
      if downloadRepository == null {
        downloadRepository := downloadRepo;
        uiState := uiState.(isLoading := true);
      }
      if settingsRepository == null {
        settingsRepository := settingsRepo;
      }
    }

    /** A new theme mode from the settings store. */
    method ReceiveThemeMode(mode: string)
      modifies this
      ensures uiState == old(uiState).(themeMode := mode)
      ensures downloadRepository == old(downloadRepository) && settingsRepository == old(settingsRepository)
    {
      uiState := uiState.(themeMode := mode);
    }

    /**
     * A new downloaded list from the download store: the list replaces the old
     * one, loading ends, and an open manga is replaced by its entry in the new
     * list, or closed when it is gone.
     */
    method ReceiveDownloadedManga(mangaList: seq<MangaAndChapters>)
      modifies this
      ensures uiState.downloadedManga == mangaList && !uiState.isLoading
      ensures uiState.selectedItems == old(uiState.selectedItems) && uiState.themeMode == old(uiState.themeMode)
      ensures old(uiState.selectedManga).None? ==> uiState.selectedManga.None?
      ensures old(uiState.selectedManga).Some? ==>
        uiState.selectedManga == FindManga(mangaList, old(uiState.selectedManga).value.manga.mangaId)
      ensures downloadRepository == old(downloadRepository) && settingsRepository == old(settingsRepository)
    {
      uiState := uiState.(downloadedManga := mangaList, isLoading := false);
      var currentSelected := uiState.selectedManga;
      if currentSelected.Some? {
        var updated := FindManga(mangaList, currentSelected.value.manga.mangaId);
        uiState := uiState.(selectedManga := updated);
      }
    }

    /** `selectManga`: opens the manga and empties the selection. */
    method SelectManga(manga: MangaAndChapters)
      modifies this
      ensures uiState == old(uiState).(selectedManga := Some(manga), selectedItems := {})
      ensures downloadRepository == old(downloadRepository) && settingsRepository == old(settingsRepository)
    {
      uiState := uiState.(selectedManga := Some(manga), selectedItems := {});
    }

    /** `clearSelectedManga`: closes the manga and empties the selection. */
    method ClearSelectedManga()
      modifies this
      ensures uiState == old(uiState).(selectedManga := None, selectedItems := {})
      ensures downloadRepository == old(downloadRepository) && settingsRepository == old(settingsRepository)
    {
      uiState := uiState.(selectedManga := None, selectedItems := {});
    }

    /** `toggleSelection`: flips the one id. */
    method ToggleSelection(id: string)
      modifies this
      ensures uiState == old(uiState).(selectedItems := Toggled(old(uiState.selectedItems), id))
      ensures downloadRepository == old(downloadRepository) && settingsRepository == old(settingsRepository)
    {
      var currentSelected := uiState.selectedItems;
      if id in currentSelected {
        currentSelected := currentSelected - {id};
      } else {
        currentSelected := currentSelected + {id};
      }
      uiState := uiState.(selectedItems := currentSelected);
    }

    /** `selectAll`: every listed manga when none is open, else every chapter of the open one. */
    method SelectAll()
      modifies this
      ensures old(uiState.selectedManga).None? ==>
        uiState == old(uiState).(selectedItems := MangaIds(old(uiState.downloadedManga)))
      ensures old(uiState.selectedManga).Some? ==>
        uiState == old(uiState).(selectedItems := ChapterIds(old(uiState.selectedManga).value.chapters))
      ensures downloadRepository == old(downloadRepository) && settingsRepository == old(settingsRepository)
    {
      var selectedManga := uiState.selectedManga;
      if selectedManga.None? {
        var list := uiState.downloadedManga;
        var allIds := set i | 0 <= i < |list| :: list[i].manga.mangaId;
        uiState := uiState.(selectedItems := allIds);
      } else {
        var chapters := selectedManga.value.chapters;
        var allIds := set i | 0 <= i < |chapters| :: chapters[i].chapterId;
        uiState := uiState.(selectedItems := allIds);
      }
    }

    /** `clearSelection`. */
    method ClearSelection()
      modifies this
      ensures uiState == old(uiState).(selectedItems := {})
      ensures downloadRepository == old(downloadRepository) && settingsRepository == old(settingsRepository)
    {
      uiState := uiState.(selectedItems := {});
    }

    /**
     * `deleteSelectedItems`: with no manga open, deletes every listed manga
     * whose id is selected; with one open, deletes its selected chapters;
     * then empties the selection. Nothing happens without a download repository.
     */
    method DeleteSelectedItems()
      requires downloadRepository != null ==> downloadRepository.Valid()
      modifies this, downloadRepository
      ensures downloadRepository == old(downloadRepository) && settingsRepository == old(settingsRepository)
      ensures downloadRepository == null ==> uiState == old(uiState)
      ensures downloadRepository != null ==> downloadRepository.Valid() && uiState == old(uiState).(selectedItems := {})
      ensures downloadRepository != null && old(uiState.selectedManga).None? ==>
        var ids := MangaIds(old(uiState.downloadedManga)) * old(uiState.selectedItems);
        && downloadRepository.mangaDb == old(downloadRepository.mangaDb) - ids
        && downloadRepository.chapterDb == ChaptersOutside(old(downloadRepository.chapterDb), ids)
        && downloadRepository.files == FilesOutside(old(downloadRepository.files), ids)
      ensures downloadRepository != null && old(uiState.selectedManga).Some? ==>
        var ids := ChapterIds(old(uiState.selectedManga).value.chapters) * old(uiState.selectedItems);
        && downloadRepository.chapterDb == old(downloadRepository.chapterDb) - ids
        && (forall k :: k in downloadRepository.mangaDb ==>
              k in old(downloadRepository.mangaDb) && downloadRepository.mangaDb[k] == old(downloadRepository.mangaDb)[k])
        && (forall k :: k in old(downloadRepository.mangaDb) && k !in downloadRepository.mangaDb ==>
              downloadRepository.ChaptersOf(k) == {})
        && downloadRepository.files == FilesOutsideChapters(old(downloadRepository.files),
             ChapterKeys(SelectedChapters(old(uiState.selectedManga).value.chapters, old(uiState.selectedItems))))
      ensures downloadRepository != null ==>
        && downloadRepository.ongoing == old(downloadRepository.ongoing)
        && downloadRepository.running == old(downloadRepository.running)
    {
      var repo := downloadRepository;
      if repo == null {
        return;
      }
      var selectedIds := uiState.selectedItems;
      var selectedManga := uiState.selectedManga;
      if selectedManga.None? {
        var mangasToDelete := SelectedEntries(uiState.downloadedManga, selectedIds);
        SelectedEntriesIds(uiState.downloadedManga, selectedIds);
        DeleteMangaList(repo, mangasToDelete);
      } else {
        var chaptersToDelete := SelectedChapters(selectedManga.value.chapters, selectedIds);
        SelectedChaptersIds(selectedManga.value.chapters, selectedIds);
        DeleteChapterList(repo, chaptersToDelete);
      }
      uiState := uiState.(selectedItems := {});
    }

    /** `setThemeMode`: passes the mode to the settings store, when there is one. */
    method SetThemeMode(mode: string)
      modifies settingsRepository
      ensures settingsRepository != null ==> settingsRepository.stored == Some(mode)
      ensures uiState == old(uiState)
    {
      if settingsRepository != null {
        settingsRepository.SetThemeMode(mode);
      }
    }

    /** `deleteManga`: passes one manga to the download store, when there is one. */
    method DeleteManga(manga: Downloads.DownloadedManga)
      requires downloadRepository != null ==> downloadRepository.Valid()
      modifies downloadRepository
      ensures uiState == old(uiState)
      ensures downloadRepository != null ==>
        && downloadRepository.Valid()
        && downloadRepository.mangaDb == old(downloadRepository.mangaDb) - {manga.mangaId}
        && downloadRepository.ChaptersOf(manga.mangaId) == {}
        && downloadRepository.chapterDb == ChaptersOutside(old(downloadRepository.chapterDb), {manga.mangaId})
        && downloadRepository.files == FilesOutside(old(downloadRepository.files), {manga.mangaId})
        && downloadRepository.ongoing == old(downloadRepository.ongoing)
        && downloadRepository.running == old(downloadRepository.running)
    {
      if downloadRepository != null {
        downloadRepository.DeleteManga(manga);
      }
    }

    /** `deleteChapter`: passes one chapter to the download store, when there is one. */
    method DeleteChapter(chapter: Downloads.DownloadedChapter)
      requires downloadRepository != null ==> downloadRepository.Valid()
      modifies downloadRepository
      ensures uiState == old(uiState)
      ensures downloadRepository != null ==>
        && downloadRepository.Valid()
        && downloadRepository.chapterDb == old(downloadRepository.chapterDb) - {chapter.chapterId}
        && downloadRepository.files
             == FilesOutsideChapters(old(downloadRepository.files), {(chapter.mangaId, chapter.chapterId)})
        && downloadRepository.mangaDb
             == (if downloadRepository.ChaptersOf(chapter.mangaId) == {}
                 then old(downloadRepository.mangaDb) - {chapter.mangaId}
                 else old(downloadRepository.mangaDb))
        && downloadRepository.ongoing == old(downloadRepository.ongoing)
        && downloadRepository.running == old(downloadRepository.running)
    {
      if downloadRepository != null {
        downloadRepository.DeleteChapter(chapter);
      }
    }
  }

  /** `forEach { repo.deleteManga(it.manga) }`. */
  method DeleteMangaList(repo: Downloads.DownloadRepository, list: seq<MangaAndChapters>)
    requires repo.Valid()
    modifies repo
    ensures repo.Valid()
    ensures repo.mangaDb == old(repo.mangaDb) - MangaIds(list)
    ensures repo.chapterDb == ChaptersOutside(old(repo.chapterDb), MangaIds(list))
    ensures repo.files == FilesOutside(old(repo.files), MangaIds(list))
    ensures repo.ongoing == old(repo.ongoing) && repo.running == old(repo.running)
  {
    var i := 0;
    while i < |list|
      invariant 0 <= i <= |list|
      invariant repo.Valid()
      invariant repo.mangaDb == old(repo.mangaDb) - MangaIds(list[..i])
      invariant repo.chapterDb == ChaptersOutside(old(repo.chapterDb), MangaIds(list[..i]))
      invariant repo.files == FilesOutside(old(repo.files), MangaIds(list[..i]))
      invariant repo.ongoing == old(repo.ongoing) && repo.running == old(repo.running)
    {
      repo.DeleteManga(list[i].manga);
      MangaIdsSnoc(list, i);
      i := i + 1;
    }
    assert list[..i] == list;
  }

  /** `forEach { repo.deleteChapter(it) }`. */
  method DeleteChapterList(repo: Downloads.DownloadRepository, list: seq<Downloads.DownloadedChapter>)
    requires repo.Valid()
    modifies repo
    ensures repo.Valid()
    ensures repo.chapterDb == old(repo.chapterDb) - ChapterIds(list)
    ensures forall k :: k in repo.mangaDb ==> k in old(repo.mangaDb) && repo.mangaDb[k] == old(repo.mangaDb)[k]
    ensures forall k :: k in old(repo.mangaDb) && k !in repo.mangaDb ==> repo.ChaptersOf(k) == {}
    ensures repo.files == FilesOutsideChapters(old(repo.files), ChapterKeys(list))
    ensures repo.ongoing == old(repo.ongoing) && repo.running == old(repo.running)
  {
    var i := 0;
    while i < |list|
      invariant 0 <= i <= |list|
      invariant repo.Valid()
      invariant repo.chapterDb == old(repo.chapterDb) - ChapterIds(list[..i])
      invariant forall k :: k in repo.mangaDb ==> k in old(repo.mangaDb) && repo.mangaDb[k] == old(repo.mangaDb)[k]
      invariant forall k :: k in old(repo.mangaDb) && k !in repo.mangaDb ==> repo.ChaptersOf(k) == {}
      invariant repo.files == FilesOutsideChapters(old(repo.files), ChapterKeys(list[..i]))
      invariant repo.ongoing == old(repo.ongoing) && repo.running == old(repo.running)
    {
      repo.DeleteChapter(list[i]);
      ChapterIdsSnoc(list, i);
      ChapterKeysSnoc(list, i);
      i := i + 1;
    }
    assert list[..i] == list;
  }
}
