# Yomi-Manga core, modelled in Dafny

Yomi-Manga is an Android manga reader written in Kotlin. The app reads a
catalogue from a web API and keeps a signed-in user's favourites and reading
history in a cloud document store. It downloads chapters for offline reading.
This project models the parts of the app that follow fixed rules, and proves
what those rules promise:

- **Manga records** (`models.dfy`). `getImageUrls` builds the page URLs of a
  chapter: it trims slashes, sorts the images stably by page number and joins
  the URL parts. The derived `cover`, `genres` and `authorName` fields are
  modelled too.
- **User document lists** (`user_lists.dfy`). The favourites list gains an id
  only when the id is absent. Removal takes out the first occurrence (Kotlin's
  `List.minus`). The reading history keeps the newest entry first, one entry
  per manga, and at most twenty entries. Stored history records are read
  leniently. Each rewrite is a read-then-update transaction on a map of user
  documents.
- **Library collections** (`library.dfy`). Favourites and history are kept per
  user and keyed by manga id. `addToHistory` overwrites an existing entry. For
  a new manga it deletes the oldest entry first once twenty are stored. A store
  call can throw; a call-budget oracle decides which one does, and
  `addToHistory` swallows the exception.
- **Offline downloads** (`downloads.dfy`). The model covers the cancellation
  flags and the set of running downloads. It covers the page loop, which
  reuses files already on disk, skips failed fetches and stops on
  cancellation. It also covers the cascading deletes of chapters and manga.
  The two local tables are maps, the disk is a set of page files, and an
  oracle gives each image fetch's outcome.
- **Storage screen state** (`settings.dfy`). The model covers selecting,
  toggling, selecting all, clearing, deleting the selected items, refreshing
  the open manga, the one-time assignment of the repositories, and the theme
  mode.
- **Reader screen** (`reader.dfy`). The model covers the chapter index,
  previous/next availability and moves, the rule that replaces the images on
  load, and the top-bar visibility rule.
- **Navigation** (`navigation.dfy`, `base64.dfy`, `utf8.dfy`). The model
  covers the route strings, the start destination and the bottom bar. A chapter
  URL travels as a route argument in Base64 form: UTF-8 bytes, the alphabet of
  section 4 of RFC 4648, no line wrapping. When decoding fails, the raw
  argument is used as the chapter id.
- **Web client id** (`firebase.dfy`). The search looks for the first OAuth
  client of type 3 in `google-services.json`, in the assets and then in three
  file paths. A found id is cached. The JSON document is a tree datatype.
- **Errors and results** (`errors.dfy`, `ui_states.dfy`, `result_ext.dfy`).
  `AppError.fromThrowable` classifies an exception. `Result.toUiState` maps a
  result to a screen state. The `onSuccess`/`onFailure` helpers run a callback
  and hand back their receiver.

Kotlin's `null` is `Wrappers.Option.None`. Clock readings are integer
parameters.

## Model

| member | source | states |
|---|---|---|
| Models.TrimEnd | app/src/main/java/com/example/yomi_manga/data/model/Manga.kt:171 | the result is a prefix of the input that does not end in the character, and everything cut off is that character |
| Models.TrimStart | app/src/main/java/com/example/yomi_manga/data/model/Manga.kt:172 | the result is a suffix of the input that does not start with the character, and everything cut off is that character |
| Models.TrimEndIgnoresExtra | app/src/main/java/com/example/yomi_manga/data/model/Manga.kt:171 | extra trailing '/' on the CDN domain do not change the trimmed domain |
| Models.TrimStartIgnoresExtra | app/src/main/java/com/example/yomi_manga/data/model/Manga.kt:172 | extra leading '/' on the chapter path do not change the trimmed path |
| Models.InsertByPage | app/src/main/java/com/example/yomi_manga/data/model/Manga.kt:173 | one step of the stable sort adds exactly the new image to the multiset of images |
| Models.InsertByPageSorted | app/src/main/java/com/example/yomi_manga/data/model/Manga.kt:173 | inserting into a list sorted by page keeps it sorted |
| Models.InsertByPageFilter | app/src/main/java/com/example/yomi_manga/data/model/Manga.kt:173 | the inserted image comes before every image of the same page, and the other images keep their order |
| Models.SortByPage | app/src/main/java/com/example/yomi_manga/data/model/Manga.kt:173 | `sortedBy { it.imagePage }` returns a permutation of its input |
| Models.SortByPageSorted | app/src/main/java/com/example/yomi_manga/data/model/Manga.kt:173 | the sorted images are in ascending page order |
| Models.SortByPageStable | app/src/main/java/com/example/yomi_manga/data/model/Manga.kt:173 | the sort is stable: the images of each page keep their input order |
| Models.SortByPageCorrect | app/src/main/java/com/example/yomi_manga/data/model/Manga.kt:173 | the sort returns a permutation, in ascending page order, and is stable |
| Models.PageUrl | app/src/main/java/com/example/yomi_manga/data/model/Manga.kt:174 | a page URL holds the base, a '/', the path and a '/' at fixed positions, and ends with exactly the file |
| Models.PageUrls | app/src/main/java/com/example/yomi_manga/data/model/Manga.kt:173-175 | the i-th URL is built from the file of the i-th image |
| Models.ImageUrls | app/src/main/java/com/example/yomi_manga/data/model/Manga.kt:167-176 | the result is empty when the domain, the path or the image list is null; otherwise there is exactly one URL per image |
| Models.ImageUrlsAt | app/src/main/java/com/example/yomi_manga/data/model/Manga.kt:171-175 | URL i is trimmed domain + "/" + trimmed path + "/" + the file of image i in page order; the slash after the domain has no slash before it, and none after it when the trimmed path is not empty |
| Models.PageUrlSecondJoin | app/src/main/java/com/example/yomi_manga/data/model/Manga.kt:174 | the slash before the file has no slash beside it when the path does not end with one and the file does not start with one |
| Models.ImageUrlsSecondJoin | app/src/main/java/com/example/yomi_manga/data/model/Manga.kt:172-175 | in every URL, the slash before the file is not doubled when the trimmed path does not end in '/' and the file does not start with '/' |
| Models.PathEndingInSlashDoublesSlash | app/src/main/java/com/example/yomi_manga/data/model/Manga.kt:172-175 | only the start of the path is trimmed: the path "x/" with domain "b" and file "f" gives "b/x//f" |
| Models.ImageUrlsIgnoreExtraSlashes | app/src/main/java/com/example/yomi_manga/data/model/Manga.kt:171-172 | adding '/' at the end of the domain or at the start of the path leaves every URL unchanged |
| Models.Cover | app/src/main/java/com/example/yomi_manga/data/model/Manga.kt:86 | the cover is null iff the thumbnail is null; otherwise it is the fixed CDN prefix followed by the thumbnail name |
| Models.Genres | app/src/main/java/com/example/yomi_manga/data/model/Manga.kt:88 | the genres are null iff the category list is null; otherwise they are the category names, one per category, in order |
| Models.Join | app/src/main/java/com/example/yomi_manga/data/model/Manga.kt:89 | an empty list joins to ""; otherwise the join starts with the first element, and its length is the elements' lengths plus one separator between each pair |
| Models.JoinSnoc | app/src/main/java/com/example/yomi_manga/data/model/Manga.kt:89 | one more author adds exactly the separator and that author at the end |
| Models.AuthorName | app/src/main/java/com/example/yomi_manga/data/model/Manga.kt:89 | the author name is null iff the author list is null; otherwise it starts with the first author and its length counts one ", " between each pair of authors |
| Utf8.EncodeChar | app/src/main/java/com/example/yomi_manga/ui/navigation/NavGraph.kt:153 | a character encodes to one to four bytes, to one byte exactly when it is ASCII, and every byte after the first is a continuation byte |
| Utf8.Encode | app/src/main/java/com/example/yomi_manga/ui/navigation/NavGraph.kt:153 | the byte count lies between the string length and four times that length |
| Utf8.DecodeFirst | app/src/main/java/com/example/yomi_manga/ui/navigation/NavGraph.kt:175 | a well-formed leading sequence has length one to four and lies within the input |
| Utf8.Decode | app/src/main/java/com/example/yomi_manga/ui/navigation/NavGraph.kt:175 | decoding never gives more characters than there are bytes |
| Utf8.DecodeFirstEncodeChar | app/src/main/java/com/example/yomi_manga/ui/navigation/NavGraph.kt:153-175 | a character's encoding, followed by anything, decodes to that character and uses exactly its own bytes |
| Utf8.DecodeEncode | app/src/main/java/com/example/yomi_manga/ui/navigation/NavGraph.kt:153-175 | decoding the UTF-8 encoding of a string gives the string back |
| Base64.Symbol | app/src/main/java/com/example/yomi_manga/ui/navigation/NavGraph.kt:153 | no 6-bit value is written as the padding character or as '?' |
| Base64.SymbolValue | app/src/main/java/com/example/yomi_manga/ui/navigation/NavGraph.kt:175 | an alphabet character stands for a value below 64 |
| Base64.SymbolValueOfSymbol | app/src/main/java/com/example/yomi_manga/ui/navigation/NavGraph.kt:153-175 | reading back the character of a value gives the value |
| Base64.Sextets | app/src/main/java/com/example/yomi_manga/ui/navigation/NavGraph.kt:153 | bytes split into 6-bit values, and the value count never leaves a group with a single value |
| Base64.Render | app/src/main/java/com/example/yomi_manga/ui/navigation/NavGraph.kt:153 | each value becomes its own alphabet character, in order |
| Base64.Padding | app/src/main/java/com/example/yomi_manga/ui/navigation/NavGraph.kt:153 | the padding holds as many '=' as the last group of three bytes lacks |
| Base64.SextetsLength | app/src/main/java/com/example/yomi_manga/ui/navigation/NavGraph.kt:153 | values plus padding give four characters per started group of three bytes |
| Base64.Encode | app/src/main/java/com/example/yomi_manga/ui/navigation/NavGraph.kt:153 | an encoding has 4·⌈n/3⌉ characters for n bytes, and no line breaks |
| Base64.Values | app/src/main/java/com/example/yomi_manga/ui/navigation/NavGraph.kt:175 | when every character belongs to the alphabet, there is one 6-bit value per character |
| Base64.PadCount | app/src/main/java/com/example/yomi_manga/ui/navigation/NavGraph.kt:175 | at most two padding characters are stripped |
| Base64.Decode | app/src/main/java/com/example/yomi_manga/ui/navigation/NavGraph.kt:175 | an input whose length is not a multiple of four is rejected |
| Base64.ValuesOfRender | app/src/main/java/com/example/yomi_manga/ui/navigation/NavGraph.kt:153-175 | reading back rendered values gives the values |
| Base64.GroupArithmetic | app/src/main/java/com/example/yomi_manga/ui/navigation/NavGraph.kt:153-175 | the four 6-bit values of three bytes reassemble into those bytes |
| Base64.AssembleFront | app/src/main/java/com/example/yomi_manga/ui/navigation/NavGraph.kt:175 | a full group of four values decodes to three bytes, before the rest |
| Base64.AssembleOne | app/src/main/java/com/example/yomi_manga/ui/navigation/NavGraph.kt:153-175 | a last group of one byte comes back |
| Base64.AssembleTwo | app/src/main/java/com/example/yomi_manga/ui/navigation/NavGraph.kt:153-175 | a last group of two bytes comes back |
| Base64.AssembleSextets | app/src/main/java/com/example/yomi_manga/ui/navigation/NavGraph.kt:153-175 | reassembling the 6-bit values of any bytes gives those bytes |
| Base64.PadCountOfEncode | app/src/main/java/com/example/yomi_manga/ui/navigation/NavGraph.kt:153-175 | stripping an encoding's padding leaves exactly its rendered values |
| Base64.ValuesLength | app/src/main/java/com/example/yomi_manga/ui/navigation/NavGraph.kt:175 | the values of a length-checked input never end in a group of one |
| Base64.DecodeOfValues | app/src/main/java/com/example/yomi_manga/ui/navigation/NavGraph.kt:175 | a length-checked input whose characters are in the alphabet decodes to the assembled values |
| Base64.DecodeEncode | app/src/main/java/com/example/yomi_manga/ui/navigation/NavGraph.kt:153-175 | Base64 decoding inverts Base64 encoding for every byte sequence |
| Base64.EncodeHasNoQuestionMark | app/src/main/java/com/example/yomi_manga/ui/navigation/NavGraph.kt:38-45 | an encoding never contains '?', so it cannot cut the reader route's path short |
| Navigation.DetailRoute | app/src/main/java/com/example/yomi_manga/ui/navigation/NavGraph.kt:35-37 | the detail route is "detail/" followed by exactly the manga id |
| Navigation.ParseDetailRoute | app/src/main/java/com/example/yomi_manga/ui/navigation/NavGraph.kt:35-37 | the id read from a detail route rebuilds that route |
| Navigation.ReaderRoute | app/src/main/java/com/example/yomi_manga/ui/navigation/NavGraph.kt:38-45 | the reader route is "reader/" + chapter id, with "?mangaSlug=" + slug appended only when a slug is given |
| Navigation.IndexOf | app/src/main/java/com/example/yomi_manga/ui/navigation/NavGraph.kt:38 | the first occurrence of a character, or the length when there is none |
| Navigation.ParseReaderRoute | app/src/main/java/com/example/yomi_manga/ui/navigation/NavGraph.kt:38 | the chapter argument matched out of a reader route never contains '?' |
| Navigation.ReaderRouteRoundTrip | app/src/main/java/com/example/yomi_manga/ui/navigation/NavGraph.kt:38-45 | matching a built reader route gives back its chapter id and its slug, or no slug |
| Navigation.IndexOfAbsent | app/src/main/java/com/example/yomi_manga/ui/navigation/NavGraph.kt:38 | the first '?' of a route lies after any prefix that has none |
| Navigation.StartDestination | app/src/main/java/com/example/yomi_manga/ui/navigation/NavGraph.kt:54 | the start destination is home iff the user is signed in, and login iff not |
| Navigation.CurrentRoute | app/src/main/java/com/example/yomi_manga/ui/navigation/NavGraph.kt:57 | the current route is the top entry's route, or the start destination when the back stack is empty |
| Navigation.ShowBottomNav | app/src/main/java/com/example/yomi_manga/ui/navigation/NavGraph.kt:59-64 | the bottom bar shows iff the route is home, explore, library or settings |
| Navigation.BottomNavAtStart | app/src/main/java/com/example/yomi_manga/ui/navigation/NavGraph.kt:54-64 | at start-up the bottom bar shows exactly when the user is signed in |
| Navigation.NoBottomNavOffTabs | app/src/main/java/com/example/yomi_manga/ui/navigation/NavGraph.kt:28-64 | detail, reader, storage and login routes never show the bottom bar |
| Navigation.EncodeChapterId | app/src/main/java/com/example/yomi_manga/ui/navigation/NavGraph.kt:153 | an encoded chapter URL contains no '?' and has a length that is a multiple of four |
| Navigation.DecodeChapterId | app/src/main/java/com/example/yomi_manga/ui/navigation/NavGraph.kt:172-178 | a missing argument reads as ""; an argument the decoder rejects is used unchanged as the chapter id |
| Navigation.EncodedIdMayContainSlash | app/src/main/java/com/example/yomi_manga/ui/navigation/NavGraph.kt:153 | the chapter URL "ab?" encodes to "YWI/": an encoded id can contain '/' |
| Navigation.ChapterIdRoundTrip | app/src/main/java/com/example/yomi_manga/ui/navigation/NavGraph.kt:165-178 | decoding an encoded chapter URL gives back the original string |
| Navigation.OpenChapterRoundTrip | app/src/main/java/com/example/yomi_manga/ui/navigation/NavGraph.kt:165-178 | opening a chapter delivers the original URL and the same slug to the reader screen |
| UserLists.StringItems | app/src/main/java/com/example/yomi_manga/data/repository/UserRepository.kt:103 | a string is kept iff it is a string item of the list; nothing is added |
| UserLists.StringItemsAppend | app/src/main/java/com/example/yomi_manga/data/repository/UserRepository.kt:103 | the string items of a concatenation are those of the first part followed by those of the second, so order and repeats are kept |
| UserLists.StringItemsOfOthers | app/src/main/java/com/example/yomi_manga/data/repository/UserRepository.kt:103 | items that are not strings are dropped |
| UserLists.MapItems | app/src/main/java/com/example/yomi_manga/data/repository/UserRepository.kt:155-157 | a map is kept iff it is a map item of the list; nothing is added |
| UserLists.MapItemsAppend | app/src/main/java/com/example/yomi_manga/data/repository/UserRepository.kt:155-157 | the map items of a concatenation are those of the first part followed by those of the second, so order and repeats are kept |
| UserLists.MapItemsOfOthers | app/src/main/java/com/example/yomi_manga/data/repository/UserRepository.kt:155-157 | items that are not maps are dropped |
| UserLists.AsStringList | app/src/main/java/com/example/yomi_manga/data/repository/UserRepository.kt:103 | a field that is missing or not a list reads as the empty list |
| UserLists.AsMapList | app/src/main/java/com/example/yomi_manga/data/repository/UserRepository.kt:155-157 | a field that is missing or not a list reads as the empty list |
| UserLists.StringItemsOfStrings | app/src/main/java/com/example/yomi_manga/data/repository/UserRepository.kt:103-105 | a stored list of strings reads back as itself |
| UserLists.MapItemsOfMaps | app/src/main/java/com/example/yomi_manga/data/repository/UserRepository.kt:155-173 | a stored list of maps reads back as itself |
| UserLists.AppendIfAbsent | app/src/main/java/com/example/yomi_manga/data/repository/UserRepository.kt:104-106 | the id is in the result; the old list is a prefix of it; the list is unchanged iff the id was already present, and otherwise grows by one |
| UserLists.AppendIfAbsentIdempotent | app/src/main/java/com/example/yomi_manga/data/repository/UserRepository.kt:104-106 | adding the same favourite twice equals adding it once |
| UserLists.FirstIndex | app/src/main/java/com/example/yomi_manga/data/repository/UserRepository.kt:124 | the id is at that index and nowhere before it |
| UserLists.MinusStep | app/src/main/java/com/example/yomi_manga/data/repository/UserRepository.kt:124 | behind a different head, the first occurrence shifts by one position |
| UserLists.Minus | app/src/main/java/com/example/yomi_manga/data/repository/UserRepository.kt:124 | an absent id changes nothing; otherwise exactly the first occurrence is cut out and the rest keep their order |
| UserLists.MinusMultiset | app/src/main/java/com/example/yomi_manga/data/repository/UserRepository.kt:124 | removing a present id takes away exactly one copy of it |
| UserLists.RemoveAfterAdd | app/src/main/java/com/example/yomi_manga/data/repository/UserRepository.kt:104-124 | removing a favourite that was just added restores the list |
| UserLists.WithoutManga | app/src/main/java/com/example/yomi_manga/data/repository/UserRepository.kt:159-161 | an entry is kept iff it is in the history and does not belong to the manga |
| UserLists.Take | app/src/main/java/com/example/yomi_manga/data/repository/UserRepository.kt:171 | `take(n)` is a prefix of length min(n, size) |
| UserLists.RewriteHistory | app/src/main/java/com/example/yomi_manga/data/repository/UserRepository.kt:159-171 | the new entry is at the head; the rest is a prefix of the other manga's entries; the length is at most 20 and is exactly min(20, 1 + entries of other manga) |
| UserLists.EntriesOfPrefix | app/src/main/java/com/example/yomi_manga/data/repository/UserRepository.kt:171 | cutting the history keeps a prefix of each manga's entries |
| UserLists.WithoutMangaKeepsOthers | app/src/main/java/com/example/yomi_manga/data/repository/UserRepository.kt:159-161 | filtering out one manga leaves every other manga's entries as they were, in order |
| UserLists.RewriteHistoryUnique | app/src/main/java/com/example/yomi_manga/data/repository/UserRepository.kt:159-171 | after a save the manga has exactly one entry, the new one |
| UserLists.NoEntriesOf | app/src/main/java/com/example/yomi_manga/data/repository/UserRepository.kt:159-161 | a history with no entry of a manga has an empty list of that manga's entries |
| UserLists.RewriteHistoryKeepsOthers | app/src/main/java/com/example/yomi_manga/data/repository/UserRepository.kt:159-171 | every other manga's entries keep their relative order; a save only drops some of them from the end |
| UserLists.StringField | app/src/main/java/com/example/yomi_manga/data/repository/UserRepository.kt:79-82 | a string stored under the key is returned; a missing key or a value that is not a string reads as "" |
| UserLists.ParseEntry | app/src/main/java/com/example/yomi_manga/data/repository/UserRepository.kt:78-84 | each of the four text fields is the stored string, or "" when the key is missing or holds something else; `lastReadAt` is the stored long, or the clock reading when it is not a long |
| UserLists.ParseEntries | app/src/main/java/com/example/yomi_manga/data/repository/UserRepository.kt:75-91 | there is one record per map item, in order |
| UserLists.ParseReadingHistory | app/src/main/java/com/example/yomi_manga/data/repository/UserRepository.kt:73-92 | a value that is not a list reads as no records; otherwise there is one record per map item and other items are dropped |
| UserLists.ParseEntryOfHistoryEntry | app/src/main/java/com/example/yomi_manga/data/repository/UserRepository.kt:78-84 | a stored history record reads back as itself |
| UserLists.SavedHistoryReadsBack | app/src/main/java/com/example/yomi_manga/data/repository/UserRepository.kt:73-173 | after a save, reading the history back gives the saved record first |
| UserLists.UserDocuments.constructor | app/src/main/java/com/example/yomi_manga/data/repository/UserRepository.kt:13 | the collection starts with the given documents |
| UserLists.UserDocuments.Field | app/src/main/java/com/example/yomi_manga/data/repository/UserRepository.kt:103 | a field is present only when the document and the field exist |
| UserLists.UserDocuments.Update | app/src/main/java/com/example/yomi_manga/data/repository/UserRepository.kt:105 | an update of an existing document sets exactly the one field; a missing document fails and nothing changes |
| UserLists.UserDocuments.AddFavoriteManga | app/src/main/java/com/example/yomi_manga/data/repository/UserRepository.kt:97-112 | a present id leaves the documents as they were; otherwise the field becomes the old list with the id appended; a missing document fails |
| UserLists.UserDocuments.RemoveFavoriteManga | app/src/main/java/com/example/yomi_manga/data/repository/UserRepository.kt:117-130 | the field becomes the old list without the id's first occurrence; a missing document fails |
| UserLists.UserDocuments.SaveReadingHistory | app/src/main/java/com/example/yomi_manga/data/repository/UserRepository.kt:135-179 | the history field becomes the rewritten history; a missing document fails |
| UserLists.FavoritesReadBack | app/src/main/java/com/example/yomi_manga/data/repository/UserRepository.kt:103-105 | the favourites written by an update read back as the same list |
| Library.RemoveSize | app/src/main/java/com/example/yomi_manga/data/repository/LibraryRepository.kt:142 | deleting a present entry shrinks the history by one |
| Library.AddedToHistorySize | app/src/main/java/com/example/yomi_manga/data/repository/LibraryRepository.kt:129-145 | after a complete add the record is stored under its id; an existing id keeps the count; a new id adds one below 20 and keeps the count at or above 20 |
| Library.HistoryEffectSize | app/src/main/java/com/example/yomi_manga/data/repository/LibraryRepository.kt:127-150 | whichever store call throws, the size afterwards is at most max(size before, 20) |
| Library.OldestDocs | app/src/main/java/com/example/yomi_manga/data/repository/LibraryRepository.kt:140 | the query gives nothing for an empty history, else one entry with the smallest `readAt` |
| Library.LibraryRepository.constructor | app/src/main/java/com/example/yomi_manga/data/repository/LibraryRepository.kt:16-20 | the repository starts with the given user, empty collections and a valid keying |
| Library.LibraryRepository.Call | app/src/main/java/com/example/yomi_manga/data/repository/LibraryRepository.kt:57 | a store call goes through iff budget is left, and it uses up one unit of budget |
| Library.LibraryRepository.AddFavorite | app/src/main/java/com/example/yomi_manga/data/repository/LibraryRepository.kt:50-58 | with no user nothing changes; otherwise the record is set under its id, overwriting; a failing call changes nothing and propagates |
| Library.LibraryRepository.RemoveFavorite | app/src/main/java/com/example/yomi_manga/data/repository/LibraryRepository.kt:60-68 | with no user nothing changes; otherwise exactly that id's document goes; a failing call changes nothing and propagates |
| Library.LibraryRepository.IsFavorite | app/src/main/java/com/example/yomi_manga/data/repository/LibraryRepository.kt:70-78 | with no user the answer is false; otherwise it is whether the id's document exists; nothing changes |
| Library.LibraryRepository.PutHistory | app/src/main/java/com/example/yomi_manga/data/repository/LibraryRepository.kt:134 | the record is set under its id in one user's history, and no other user's history changes |
| Library.LibraryRepository.DeleteHistory | app/src/main/java/com/example/yomi_manga/data/repository/LibraryRepository.kt:142 | the document is deleted from one user's history, and no other user's history changes |
| Library.LibraryRepository.AddToHistory | app/src/main/java/com/example/yomi_manga/data/repository/LibraryRepository.kt:121-151 | with no user nothing changes; otherwise the history reaches one of the states a partial or complete add allows, and the complete add when the calls of its path succeed (two for a manga already in the history, three for a new one below the cap, five for a full history); other users are untouched; nothing is thrown |
| Library.LibraryRepository.AddNewToFullHistory | app/src/main/java/com/example/yomi_manga/data/repository/LibraryRepository.kt:137-145 | for a new id in a full history, the oldest entry is deleted and then the record is inserted, stopping at the first failing call |
| Downloads.StopIndex | app/src/main/java/com/example/yomi_manga/data/repository/DownloadRepository.kt:94-123 | the page check at which a run stops lies between the start and the page count |
| Downloads.StopIndexAt | app/src/main/java/com/example/yomi_manga/data/repository/DownloadRepository.kt:94-123 | a run stops at the first page check that sees a cancellation or a throwing fetch |
| Downloads.KeptPages | app/src/main/java/com/example/yomi_manga/data/repository/DownloadRepository.kt:94-123 | the kept page files belong to the chapter, come in strictly increasing page order, and are no more than the pages seen |
| Downloads.KeptPagesExactly | app/src/main/java/com/example/yomi_manga/data/repository/DownloadRepository.kt:103-122 | a page is kept iff its file already existed or its fetch succeeded |
| Downloads.IdsOfSnoc | app/src/main/java/com/example/yomi_manga/data/repository/DownloadRepository.kt:165 | appending a chapter row adds exactly its id to the list's ids |
| Downloads.DownloadRepository.constructor | app/src/main/java/com/example/yomi_manga/data/repository/DownloadRepository.kt:27-38 | the repository starts with no flags, no running downloads and the given tables and files |
| Downloads.DownloadRepository.IsChapterDownloaded | app/src/main/java/com/example/yomi_manga/data/repository/DownloadRepository.kt:48-50 | a chapter counts as downloaded iff its row exists |
| Downloads.DownloadRepository.CancelDownload | app/src/main/java/com/example/yomi_manga/data/repository/DownloadRepository.kt:56-58 | only the chapter's flag changes, to false |
| Downloads.DownloadRepository.UpdateRunningDownloads | app/src/main/java/com/example/yomi_manga/data/repository/DownloadRepository.kt:146-154 | the id is running iff it is being added; every other id keeps its membership |
| Downloads.DownloadRepository.DownloadChapter | app/src/main/java/com/example/yomi_manga/data/repository/DownloadRepository.kt:60-144 | on every exit the flag and the running entry are gone; the manga row is inserted only when missing; the fetched pages are on disk; the chapter row, with the kept pages in order, is stored iff no check saw a cancellation and no fetch threw |
| Downloads.DownloadRepository.StartDownload | app/src/main/java/com/example/yomi_manga/data/repository/DownloadRepository.kt:67-84 | the flag is set to true, the id starts running, and an existing manga row is not overwritten |
| Downloads.DownloadRepository.SaveChapter | app/src/main/java/com/example/yomi_manga/data/repository/DownloadRepository.kt:125-136 | the chapter row is inserted iff the final check sees no cancellation |
| Downloads.DownloadRepository.FetchPages | app/src/main/java/com/example/yomi_manga/data/repository/DownloadRepository.kt:86-123 | the loop keeps existing files without fetching them, writes and keeps fetched pages, skips failed ones, and stops at a cancellation or a throwing fetch |
| Downloads.DownloadRepository.ChaptersOf | app/src/main/java/com/example/yomi_manga/data/repository/DownloadRepository.kt:165 | exactly the ids of the manga's chapter rows |
| Downloads.DownloadRepository.DeleteChapter | app/src/main/java/com/example/yomi_manga/data/repository/DownloadRepository.kt:156-173 | the chapter's row and files go, and the manga row goes exactly when no chapter of it is left |
| Downloads.DownloadRepository.ChaptersForManga | app/src/main/java/com/example/yomi_manga/data/local/DownloadedChapterDao.kt:19-20 | the listed rows are the stored rows of exactly that manga's chapters |
| Downloads.DownloadRepository.DeleteManga | app/src/main/java/com/example/yomi_manga/data/repository/DownloadRepository.kt:175-188 | no chapter row, no file and no row of that manga remain, and nothing of any other manga changes |
| Settings.SettingsRepository.constructor | app/src/main/java/com/example/yomi_manga/data/repository/SettingsRepository.kt:14-15 | the store starts with the given stored mode |
| Settings.SettingsRepository.ThemeMode | app/src/main/java/com/example/yomi_manga/data/repository/SettingsRepository.kt:17-19 | the theme is the stored mode, or "system" when none is stored |
| Settings.SettingsRepository.SetThemeMode | app/src/main/java/com/example/yomi_manga/data/repository/SettingsRepository.kt:21-25 | a stored mode is what the store reads back |
| Settings.Toggled | app/src/main/java/com/example/yomi_manga/ui/viewmodel/SettingsViewModel.kt:86-94 | only the toggled id's membership flips |
| Settings.ToggledTwice | app/src/main/java/com/example/yomi_manga/ui/viewmodel/SettingsViewModel.kt:86-94 | toggling twice restores the selection |
| Settings.FirstPosition | app/src/main/java/com/example/yomi_manga/ui/viewmodel/SettingsViewModel.kt:71 | the position of the first entry of the manga, or the length when there is none |
| Settings.FindManga | app/src/main/java/com/example/yomi_manga/ui/viewmodel/SettingsViewModel.kt:71 | the result is none iff no entry has the id; otherwise it is the first entry with the id |
| Settings.SelectedEntries | app/src/main/java/com/example/yomi_manga/ui/viewmodel/SettingsViewModel.kt:118 | an entry is picked iff it is listed and its manga id is selected |
| Settings.SelectedChapters | app/src/main/java/com/example/yomi_manga/ui/viewmodel/SettingsViewModel.kt:121 | a chapter is picked iff it belongs to the open manga and its id is selected |
| Settings.SelectedEntriesIds | app/src/main/java/com/example/yomi_manga/ui/viewmodel/SettingsViewModel.kt:118 | the picked manga ids are the listed ids intersected with the selection |
| Settings.SelectedChaptersIds | app/src/main/java/com/example/yomi_manga/ui/viewmodel/SettingsViewModel.kt:121 | the picked chapter ids are the open manga's chapter ids intersected with the selection |
| Settings.MangaIdsSnoc | app/src/main/java/com/example/yomi_manga/ui/viewmodel/SettingsViewModel.kt:119 | each step of the deletion loop adds exactly one manga id to those handled |
| Settings.ChapterIdsSnoc | app/src/main/java/com/example/yomi_manga/ui/viewmodel/SettingsViewModel.kt:122 | each step of the deletion loop adds exactly one chapter id to those handled |
| Settings.SettingsViewModel.constructor | app/src/main/java/com/example/yomi_manga/ui/viewmodel/SettingsViewModel.kt:15-28 | the state starts empty, not loading, with no manga open, nothing selected and the "system" theme |
| Settings.SettingsViewModel.Init | app/src/main/java/com/example/yomi_manga/ui/viewmodel/SettingsViewModel.kt:31-40 | each repository is assigned only when none is set, so later calls do not replace it; assigning the download repository starts loading |
| Settings.SettingsViewModel.ReceiveThemeMode | app/src/main/java/com/example/yomi_manga/ui/viewmodel/SettingsViewModel.kt:45-47 | a theme update changes only the theme mode |
| Settings.SettingsViewModel.SetThemeMode | app/src/main/java/com/example/yomi_manga/ui/viewmodel/SettingsViewModel.kt:52-56 | the mode reaches the store when there is one, and the screen state is unchanged |
| Settings.SettingsViewModel.ReceiveDownloadedManga | app/src/main/java/com/example/yomi_manga/ui/viewmodel/SettingsViewModel.kt:62-73 | the list is replaced and loading ends; the open manga becomes its entry in the new list, or none when it is gone; the selection is kept |
| Settings.SettingsViewModel.SelectManga | app/src/main/java/com/example/yomi_manga/ui/viewmodel/SettingsViewModel.kt:78-80 | the manga opens and the selection is empty |
| Settings.SettingsViewModel.ClearSelectedManga | app/src/main/java/com/example/yomi_manga/ui/viewmodel/SettingsViewModel.kt:82-84 | no manga is open and the selection is empty |
| Settings.SettingsViewModel.ToggleSelection | app/src/main/java/com/example/yomi_manga/ui/viewmodel/SettingsViewModel.kt:86-94 | only the membership of the id flips; the rest of the state is unchanged |
| Settings.SettingsViewModel.SelectAll | app/src/main/java/com/example/yomi_manga/ui/viewmodel/SettingsViewModel.kt:96-105 | the selection becomes exactly the listed manga ids when no manga is open, else exactly the open manga's chapter ids |
| Settings.SettingsViewModel.ClearSelection | app/src/main/java/com/example/yomi_manga/ui/viewmodel/SettingsViewModel.kt:107-109 | the selection is empty and nothing else changes |
| Settings.SettingsViewModel.DeleteSelectedItems | app/src/main/java/com/example/yomi_manga/ui/viewmodel/SettingsViewModel.kt:111-126 | with no manga open, exactly the selected listed manga, their chapters and their files go; with one open, exactly its selected chapters and their files go and only chapterless manga rows go; the download flags stay; the selection then empties; without a repository nothing happens |
| Settings.SettingsViewModel.DeleteManga | app/src/main/java/com/example/yomi_manga/ui/viewmodel/SettingsViewModel.kt:128-132 | with a repository, the manga's row, all its chapter rows and all its page files go; other manga's rows and files stay; the download flags stay |
| Settings.SettingsViewModel.DeleteChapter | app/src/main/java/com/example/yomi_manga/ui/viewmodel/SettingsViewModel.kt:134-138 | with a repository, exactly the chapter's row and page files go, and the manga row goes exactly when none of its chapters remain; the download flags stay |
| Settings.DeleteMangaList | app/src/main/java/com/example/yomi_manga/ui/viewmodel/SettingsViewModel.kt:119 | deleting a list of manga removes exactly their rows, every chapter row of theirs and every page file of theirs; the download flags stay |
| Settings.DeleteChapterList | app/src/main/java/com/example/yomi_manga/ui/viewmodel/SettingsViewModel.kt:122 | deleting a list of chapters removes exactly their rows and page files; a manga row goes only when none of its chapters remain; the download flags stay |
| Reader.Flatten | app/src/main/java/com/example/yomi_manga/ui/screen/reader/ReaderScreen.kt:59 | a chapter is in the flattened list iff some server lists it |
| Reader.FlattenAppend | app/src/main/java/com/example/yomi_manga/ui/screen/reader/ReaderScreen.kt:59 | the chapters of earlier servers come before those of later servers |
| Reader.FlattenOne | app/src/main/java/com/example/yomi_manga/ui/screen/reader/ReaderScreen.kt:59 | one server contributes exactly its own chapter list, in order |
| Reader.AllChapters | app/src/main/java/com/example/yomi_manga/ui/screen/reader/ReaderScreen.kt:58-60 | there are no chapters while the manga or its chapter list is unknown |
| Reader.ChapterIndex | app/src/main/java/com/example/yomi_manga/ui/screen/reader/ReaderScreen.kt:62-64 | the first index whose URL is the current one, or -1 when there is none |
| Reader.UnknownChapterHasNeither | app/src/main/java/com/example/yomi_manga/ui/screen/reader/ReaderScreen.kt:62-67 | a chapter that is not in the list has neither a previous nor a next chapter |
| Reader.EndsOfTheList | app/src/main/java/com/example/yomi_manga/ui/screen/reader/ReaderScreen.kt:62-67 | the first chapter has no previous one, and the last one has no next one |
| Reader.IndexOfOwnUrl | app/src/main/java/com/example/yomi_manga/ui/screen/reader/ReaderScreen.kt:62-64 | with distinct URLs, the index of a chapter's URL is its position |
| Reader.TopBarHidesOnlyScrollingDown | app/src/main/java/com/example/yomi_manga/ui/screen/reader/ReaderScreen.kt:72-74 | the top bar hides iff the position grew and is at least 100 |
| Reader.ReaderState.constructor | app/src/main/java/com/example/yomi_manga/ui/screen/reader/ReaderScreen.kt:47-56 | the screen starts loading, with no images or error, the top bar shown, no manga, and the given chapter |
| Reader.ReaderState.CurrentIndex | app/src/main/java/com/example/yomi_manga/ui/screen/reader/ReaderScreen.kt:62-64 | the current index is -1 or a valid position in the chapter list |
| Reader.ReaderState.Scroll | app/src/main/java/com/example/yomi_manga/ui/screen/reader/ReaderScreen.kt:69-76 | with position = index·1000 + offset, the top bar shows iff the position is at most the previous one or below 100; the position is remembered |
| Reader.ReaderState.ReceiveMangaDetail | app/src/main/java/com/example/yomi_manga/ui/screen/reader/ReaderScreen.kt:78-87 | a loaded manga replaces the manga, and a failure changes nothing |
| Reader.ReaderState.LoadChapterImages | app/src/main/java/com/example/yomi_manga/ui/screen/reader/ReaderScreen.kt:89-121 | a success replaces the whole image list and clears the error; a failure keeps the images and records its message; loading ends either way |
| Reader.ReaderState.NavigateToChapter | app/src/main/java/com/example/yomi_manga/ui/screen/reader/ReaderScreen.kt:123-130 | the chapter becomes current, the same URL is reported once, and the chapter list closes |
| Reader.ReaderState.NavigateToPreviousChapter | app/src/main/java/com/example/yomi_manga/ui/screen/reader/ReaderScreen.kt:132-137 | without a previous chapter nothing changes; otherwise the chapter at index − 1 becomes current (exactly index − 1 when the URLs are distinct), it is reported, the chapter list closes, and the images, loading flag, error and top-bar state stay |
| Reader.ReaderState.NavigateToNextChapter | app/src/main/java/com/example/yomi_manga/ui/screen/reader/ReaderScreen.kt:139-144 | without a next chapter nothing changes; otherwise the chapter at index + 1 becomes current (exactly index + 1 when the URLs are distinct), it is reported, the chapter list closes, and the images, loading flag, error and top-bar state stay |
| Firebase.OptInt | app/src/main/java/com/example/yomi_manga/util/FirebaseConfig.kt:70 | a missing member gives the fallback, and a number member gives its value |
| Firebase.OptString | app/src/main/java/com/example/yomi_manga/util/FirebaseConfig.kt:73 | a missing member gives null, and a string member gives the string |
| Firebase.OptArray | app/src/main/java/com/example/yomi_manga/util/FirebaseConfig.kt:65 | an array is given iff the member exists and is an array |
| Firebase.ScanOauth | app/src/main/java/com/example/yomi_manga/util/FirebaseConfig.kt:68-78 | a found id belongs to the first OAuth client of type 3 that has an id; the result is not-found iff every entry is an object and none matches |
| Firebase.ScanClients | app/src/main/java/com/example/yomi_manga/util/FirebaseConfig.kt:63-80 | the search runs client by client and stops at the first client whose OAuth clients yield an id or an error; the result is not-found iff no client does |
| Firebase.WebClientIdIn | app/src/main/java/com/example/yomi_manga/util/FirebaseConfig.kt:58-86 | malformed text or a missing "client" array gives null; otherwise an id is given iff the search finds one |
| Firebase.ParseWebClientId | app/src/main/java/com/example/yomi_manga/util/FirebaseConfig.kt:58-86 | the nested loops with early returns compute the search's answer |
| Firebase.ScanFiles | app/src/main/java/com/example/yomi_manga/util/FirebaseConfig.kt:36-46 | the first existing path decides: a found id is named by a readable path that every earlier path was passed over for; the search is not-found iff every path is missing or names no web client |
| Firebase.ScanFilesThrew | app/src/main/java/com/example/yomi_manga/util/FirebaseConfig.kt:36-51 | a throw comes from an existing file that cannot be read, with every earlier path passed over |
| Firebase.WebClientIdFrom | app/src/main/java/com/example/yomi_manga/util/FirebaseConfig.kt:18-52 | the assets' id wins; otherwise an id is returned iff the file search finds one, and it is the first path's id; the result is null iff neither the assets nor the file search give an id, so an unreadable file ends the search with null |
| Firebase.MissingClientTypeNeverMatches | app/src/main/java/com/example/yomi_manga/util/FirebaseConfig.kt:70-72 | an OAuth client without `client_type` never matches |
| Firebase.ClientWithoutOauthSkipped | app/src/main/java/com/example/yomi_manga/util/FirebaseConfig.kt:65-67 | a client without an `oauth_client` array is passed over |
| Firebase.FirebaseConfig.constructor | app/src/main/java/com/example/yomi_manga/util/FirebaseConfig.kt:10 | the cache starts empty |
| Firebase.FirebaseConfig.GetWebClientId | app/src/main/java/com/example/yomi_manga/util/FirebaseConfig.kt:15-53 | a cached id is returned without reading any source; otherwise the search result is returned, and the cache is set only when an id is found |
| Firebase.FirebaseConfig.GetDefaultWebClientId | app/src/main/java/com/example/yomi_manga/util/FirebaseConfig.kt:92-95 | the result is never null: the cached or found id, else the built-in id |
| Errors.AppError.Message | app/src/main/java/com/example/yomi_manga/core/error/AppError.kt:10-28 | each kind has its fixed message |
| Errors.FromThrowable | app/src/main/java/com/example/yomi_manga/core/error/AppError.kt:31-40 | the cause is the input; network failures map to network errors, auth and Firestore exceptions to their kinds, everything else to unknown, each iff |
| Errors.MessagesIdentifyKinds | app/src/main/java/com/example/yomi_manga/core/error/AppError.kt:10-28 | the four messages are distinct, so the message determines the kind |
| Errors.FromThrowableIgnoresMessage | app/src/main/java/com/example/yomi_manga/core/error/AppError.kt:31-40 | the classification does not depend on the exception's own message |
| ResultExt.OnSuccess | app/src/main/java/com/example/yomi_manga/core/util/ResultExt.kt:6-9 | the receiver comes back; the action runs once, with the value, iff the result is a success; a success holding null throws |
| ResultExt.OnFailure | app/src/main/java/com/example/yomi_manga/core/util/ResultExt.kt:11-14 | the receiver comes back; the action runs once, with the exception, iff the result is a failure |
| ResultExt.ExactlyOneActionRuns | app/src/main/java/com/example/yomi_manga/core/util/ResultExt.kt:6-14 | chaining both helpers runs exactly one action, once |
| UiStates.ToUiState | app/src/main/java/com/example/yomi_manga/core/ui/UiState.kt:15-19 | the result is never loading; it is a success iff the result is, holding its value; a failure gives its message, or "Unknown error", along with its exception |
| UiStates.ToUiStateInjective | app/src/main/java/com/example/yomi_manga/core/ui/UiState.kt:15-19 | different results give different states |

## Left out

- Compose layout, Coil image loading, bitmap compression, directory creation and recursive file deletion are not modelled. Files are a set of page files; each fetch's outcome is an oracle.
- Coroutines, `StateFlow` and snapshot listeners are not modelled: `getFavoriteMangaList`, `getReadingHistory`, `getReadingHistoryForManga`, `getAllDownloadedManga`, `getDownloadedChapters` and `getDownloadedChapter` only stream or look up stored rows. Their values enter the model as method arguments (`ReceiveDownloadedManga`, `ReceiveThemeMode`).
- Interleavings are not modelled. A download runs as one sequential run, and a cancellation from another thread arrives through the `cancelled` oracle at a page check.
- `getUser` and `saveUser` are not modelled. The `ReadingHistory` and `User` records that `UserRepository` builds do not match the app's record types, so its history entries use a record type of their own.
- Sign-in flows, the API client and the view models other than the storage screen's are not part of this model.
- Timestamps are integer parameters. `downloadChapter` reads the clock twice; the model uses one reading for both.
- `chapterNumber` is a `real` that is carried along and never inspected.
- Downloads.DownloadRepository.DownloadChapter: only a page fetch or a page write can throw; failures of the local tables are not modelled.
- Library.LibraryRepository.AddToHistory: when two entries share the smallest `readAt`, which one the store's ordered query returns is not modelled. Any one of them may be deleted.
- Library.LibraryRepository.AddToHistory: a failing call is modelled by a call budget. A failure in the middle of the operation leaves one of the partial states that `HistoryEffect` lists.
- UserLists.UserDocuments.AddFavoriteManga: transaction retries under contention are not modelled. Each transaction runs once, and its read and its update see the same document.
- Base64.Decode: this is the strict decoder of section 4 of RFC 4648. Android's decoder also skips characters outside the alphabet and accepts missing padding, so some arguments the model rejects (and keeps raw) would be decoded by the app. Arguments the app itself encoded decode the same way in both.
- Utf8.Decode: a malformed byte becomes one replacement character. Java's decoder replaces a maximal ill-formed subpart with one character. Well-formed input, including every encoded chapter URL, decodes the same way in both.
- Navigation.ParseReaderRoute: the argument is matched up to the first '?'. The navigation library's path matching and percent-decoding are not modelled. The library matches a path argument only within one path segment, and `EncodedIdMayContainSlash` shows that an encoded chapter URL can contain '/'. That happens whenever one 6-bit value of the URL's UTF-8 bytes is 63: for example '?' or DEL at a byte position p with p mod 3 = 2, or some non-ASCII sequences such as the bytes C3 BF C3. The model therefore does not capture a chapter route that fails to match.
- Firebase.OptString: org.json writes an array or object member out as its JSON text. The model treats such a member as missing.
- Firebase.OptInt: org.json also coerces numeric strings and non-integral numbers. The model reads only integer members.
- Firebase.WebClientIdIn: reading the file and parsing the JSON text are not modelled. A document arrives already parsed, or as `Malformed`.
- Firebase.FirebaseConfig.GetDefaultWebClientId: the result is never null, but it can be empty, because a found `client_id` of "" is returned as it is.
- Models.AuthorName: the contract states the first author and the total length of the joined name. The exact text is stated step by step by `JoinSnoc`.
- Reader.ReaderState.NavigateToPreviousChapter: when two chapters share a URL, the new index is the first index of the new URL, at most index − 1. The exact index − 1 holds only when the URLs are distinct, as the source's own index lookup implies.
- Reader.ReaderState.NavigateToNextChapter: when two chapters share a URL, the new index is at most index + 1. The exact index + 1 holds only when the URLs are distinct.
- Utf8.Encode: characters are Unicode scalar values. A Kotlin string is UTF-16 and can hold an unpaired surrogate, which `toByteArray(UTF_8)` turns into '?'. `ChapterIdRoundTrip` therefore does not cover a chapter URL that holds one.
- UserLists.ParseEntries: one clock reading `now` serves every record. The source reads the clock separately for each map item whose `lastReadAt` is not a long, so those records can carry different times.
- Settings.DeleteChapterList: the contract states that the remaining manga rows are unchanged and that a removed manga has no chapters left. It does not state which manga rows go.
- Reader.ReaderState.NavigateToChapter: the scroll back to the first page is UI animation and is not modelled.
- Settings.SettingsViewModel.DeleteSelectedItems: for the chapter level, the contract states that the manga rows that remain are unchanged and that a removed manga has no chapters left. It does not state which manga rows go.
