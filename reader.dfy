/**
 * The reader screen's state: the chapter being read, its page images, the
 * loading and error flags, the chapter list of the manga, and the top bar
 * that hides while the reader scrolls down.
 */
module Reader {
  import opened Wrappers
  import opened Models

  /** A scroll position: the first visible item and how far it is scrolled. */
  const ItemHeight: int := 1000

  /** Below this position the top bar always shows. */
  const TopZone: int := 100

  /** The chapters of every server, server after server, each in its listed order. */
  function Flatten(servers: seq<ChapterServer>): (r: seq<ChapterData>)
    ensures forall s, c :: s in servers && c in s.serverData ==> c in r
    ensures forall c :: c in r ==> exists s :: s in servers && c in s.serverData
  {
    if servers == [] then []
    else servers[0].serverData + Flatten(servers[1..])
  }

  /** Flattening a concatenation lists the first servers' chapters before the second's. */
  lemma {:induction false} FlattenAppend(a: seq<ChapterServer>, b: seq<ChapterServer>)
    ensures Flatten(a + b) == Flatten(a) + Flatten(b)
  {
    if a != [] {
      assert (a + b)[1..] == a[1..] + b;
      FlattenAppend(a[1..], b);
    } else {
      assert a + b == b;
    }
  }

  /** One server contributes exactly its own chapter list, in order. */
  lemma FlattenOne(server: ChapterServer)
    ensures Flatten([server]) == server.serverData
  {
    assert [server][1..] == [];
  }

  /** `allChapters`: no chapters until the manga's details are known. */
  function AllChapters(manga: Option<Manga>): (r: seq<ChapterData>)
    ensures manga.None? || manga.value.chapters.None? ==> r == []
  {
    if manga.Some? && manga.value.chapters.Some? then Flatten(manga.value.chapters.value) else []
  }

  /** `indexOfFirst { it.chapterApiData == url }`: the first index of that URL, or -1. */
  function ChapterIndex(chapters: seq<ChapterData>, url: string): (k: int)
    ensures -1 <= k < |chapters|
    ensures k >= 0 ==> chapters[k].chapterApiData == url
    ensures forall j :: 0 <= j < |chapters| && (k < 0 || j < k) ==> chapters[j].chapterApiData != url
  {
    if chapters == [] then -1
    else if chapters[0].chapterApiData == url then 0
    else
      var k := ChapterIndex(chapters[1..], url);
      if k < 0 then -1 else k + 1
  }

  /** `hasPreviousChapter`. */
  predicate HasPrevious(index: int)
  {
    index > 0
  }

  /** `hasNextChapter`. */
  predicate HasNext(index: int, size: int)
  {
    index >= 0 && index < size - 1
  }

  /** A chapter that is not in the list has neither a previous nor a next chapter. */
  lemma UnknownChapterHasNeither(chapters: seq<ChapterData>, url: string)
    requires forall c :: c in chapters ==> c.chapterApiData != url
    ensures !HasPrevious(ChapterIndex(chapters, url)) && !HasNext(ChapterIndex(chapters, url), |chapters|)
  {
  }

  /** The first and the last chapter of the list lack a previous and a next one, respectively. */
  lemma EndsOfTheList(chapters: seq<ChapterData>, url: string)
    requires chapters != []
    ensures chapters[0].chapterApiData == url ==> !HasPrevious(ChapterIndex(chapters, url))
    ensures (forall j :: 0 <= j < |chapters| - 1 ==> chapters[j].chapterApiData != url)
            ==> !HasNext(ChapterIndex(chapters, url), |chapters|)
  {
  }

  /** No two chapters of the list share a URL. */
  ghost predicate DistinctUrls(chapters: seq<ChapterData>)
  {
    forall i, j :: 0 <= i < j < |chapters| ==> chapters[i].chapterApiData != chapters[j].chapterApiData
  }

  /** With distinct URLs, the index of a chapter's own URL is its position. */
  lemma IndexOfOwnUrl(chapters: seq<ChapterData>, i: int)
    requires DistinctUrls(chapters) && 0 <= i < |chapters|
    ensures ChapterIndex(chapters, chapters[i].chapterApiData) == i
  {
  }

  /** The top bar rule: it shows when the reader scrolls up, stays still, or is near the top. */
  predicate ShowsTopBar(previous: int, current: int)
  {
    current <= previous || current < TopZone
  }

  /** Scrolling down past the top zone hides the top bar; coming back near the top shows it. */
  lemma TopBarHidesOnlyScrollingDown(previous: int, current: int)
    ensures !ShowsTopBar(previous, current) <==> current > previous && current >= TopZone
  {
  }

  /** The outcome of `getChapterImages`: the image URLs, or the failure's message (possibly null). */
  datatype ImagesResult = Images(urls: seq<string>) | ImagesFailed(message: Option<string>)

  class ReaderState {
    var images: seq<string>
    var isLoading: bool
    var error: Option<string>
    var showTopBar: bool
    var previousScrollOffset: int
    var manga: Option<Manga>
    var showChapterList: bool
    var currentChapterUrl: string
    /** The ids passed to `onChapterChange`, oldest first. */
    var reportedChapters: seq<string>

    constructor(chapterId: string)
      ensures images == [] && isLoading && error.None?
      ensures showTopBar && previousScrollOffset == 0
      ensures manga.None? && !showChapterList
      ensures currentChapterUrl == chapterId && reportedChapters == []
    {
      images := [];
      isLoading := true;
      error := None;
      showTopBar := true;
      previousScrollOffset := 0;
      manga := None;
      showChapterList := false;
      currentChapterUrl := chapterId;
      reportedChapters := [];
    }

    function Chapters(): seq<ChapterData>
      reads this
    {
      AllChapters(manga)
    }

    /** `currentChapterIndex`. */
    function CurrentIndex(): (k: int)
      reads this
      ensures -1 <= k < |Chapters()|
    {
      ChapterIndex(Chapters(), currentChapterUrl)
    }

    /** A new scroll position of the page list. */
    method Scroll(firstVisibleItemIndex: nat, firstVisibleItemScrollOffset: nat)
      modifies this
      ensures var current := firstVisibleItemIndex * ItemHeight + firstVisibleItemScrollOffset;
              && (showTopBar <==> ShowsTopBar(old(previousScrollOffset), current))
              && previousScrollOffset == current
      ensures images == old(images) && isLoading == old(isLoading) && error == old(error)
      ensures manga == old(manga) && showChapterList == old(showChapterList)
      ensures currentChapterUrl == old(currentChapterUrl) && reportedChapters == old(reportedChapters)
    {
      var currentOffset := firstVisibleItemIndex * ItemHeight + firstVisibleItemScrollOffset;
      showTopBar := currentOffset <= previousScrollOffset || currentOffset < TopZone;
      previousScrollOffset := currentOffset;
    }

    /** The manga's details arrived: a failure is ignored. */
    method ReceiveMangaDetail(detail: Option<Manga>)
      modifies this
      ensures detail.Some? ==> manga == detail
      ensures detail.None? ==> manga == old(manga)
      ensures images == old(images) && isLoading == old(isLoading) && error == old(error)
      ensures showTopBar == old(showTopBar) && previousScrollOffset == old(previousScrollOffset)
      ensures showChapterList == old(showChapterList)
      ensures currentChapterUrl == old(currentChapterUrl) && reportedChapters == old(reportedChapters)
    {
      if detail.Some? {
        manga := detail;
      }
    }

    /**
     * Loading the current chapter's images: a success replaces the whole image
     * list; a failure records its message and keeps the images shown so far.
     * Either way loading ends.
     */
    method LoadChapterImages(result: ImagesResult)
      modifies this
      ensures !isLoading
      ensures result.Images? ==> images == result.urls && error.None?
      ensures result.ImagesFailed? ==> images == old(images) && error == result.message
      ensures showTopBar == old(showTopBar) && previousScrollOffset == old(previousScrollOffset)
      ensures manga == old(manga) && showChapterList == old(showChapterList)
      ensures currentChapterUrl == old(currentChapterUrl) && reportedChapters == old(reportedChapters)
    {
      isLoading := true;
      error := None;
      match result {
        case Images(imageList) =>
          images := [];
          images := images + imageList;
          isLoading := false;
        case ImagesFailed(message) =>
          error := message;
          isLoading := false;
      }
    }

    /** `navigateToChapter`: switches to the chapter, reports it, and closes the chapter list. */
    method NavigateToChapter(chapter: ChapterData)
      modifies this
      ensures currentChapterUrl == chapter.chapterApiData
      ensures reportedChapters == old(reportedChapters) + [chapter.chapterApiData]
      ensures !showChapterList
      ensures images == old(images) && isLoading == old(isLoading) && error == old(error)
      ensures showTopBar == old(showTopBar) && previousScrollOffset == old(previousScrollOffset)
      ensures manga == old(manga)
    {
      currentChapterUrl := chapter.chapterApiData;
      reportedChapters := reportedChapters + [chapter.chapterApiData];
      showChapterList := false;
    }

    /**
     * `navigateToPreviousChapter`: moves to the chapter before the current one,
     * and does nothing when there is none.
     */
    method NavigateToPreviousChapter()
      modifies this
      ensures !HasPrevious(old(CurrentIndex())) ==> unchanged(this)
      ensures HasPrevious(old(CurrentIndex())) ==>
        && currentChapterUrl == old(Chapters())[old(CurrentIndex()) - 1].chapterApiData
        && reportedChapters == old(reportedChapters) + [currentChapterUrl]
        && !showChapterList && manga == old(manga)
        && images == old(images) && isLoading == old(isLoading) && error == old(error)
        && showTopBar == old(showTopBar) && previousScrollOffset == old(previousScrollOffset)
        && 0 <= CurrentIndex() <= old(CurrentIndex()) - 1
        && (DistinctUrls(Chapters()) ==> CurrentIndex() == old(CurrentIndex()) - 1)
    {
      var index := CurrentIndex();
      if HasPrevious(index) {
        var chapters := Chapters();
        var prevChapter := chapters[index - 1];
        NavigateToChapter(prevChapter);
        assert Chapters() == chapters;
        if DistinctUrls(chapters) {
          IndexOfOwnUrl(chapters, index - 1);
        }
      }
    }

    /**
     * `navigateToNextChapter`: moves to the chapter after the current one,
     * and does nothing when there is none.
     */
    method NavigateToNextChapter()
      modifies this
      ensures !HasNext(old(CurrentIndex()), |old(Chapters())|) ==> unchanged(this)
      ensures HasNext(old(CurrentIndex()), |old(Chapters())|) ==>
        && currentChapterUrl == old(Chapters())[old(CurrentIndex()) + 1].chapterApiData
        && reportedChapters == old(reportedChapters) + [currentChapterUrl]
        && !showChapterList && manga == old(manga)
        && images == old(images) && isLoading == old(isLoading) && error == old(error)
        && showTopBar == old(showTopBar) && previousScrollOffset == old(previousScrollOffset)
        && 0 <= CurrentIndex() <= old(CurrentIndex()) + 1
        && (DistinctUrls(Chapters()) ==> CurrentIndex() == old(CurrentIndex()) + 1)
    {
      var index := CurrentIndex();
      if HasNext(index, |Chapters()|) {
        var chapters := Chapters();
        var nextChapter := chapters[index + 1];
        NavigateToChapter(nextChapter);
        assert Chapters() == chapters;
        if DistinctUrls(chapters) {
          IndexOfOwnUrl(chapters, index + 1);
        }
      }
    }
  }
}
