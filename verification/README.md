# pushtape-cassette in Dafny

pushtape-cassette is a static music-release site in two parts:

- a catalog builder, `dub.py`;
- a single-page front end, `assets/js/application.js`.

The builder walks a `releases/` directory. Each folder holding `.mp3` or `.wav` files becomes a release. For each release it writes a JSPF tracklist, and it writes one `cassette.json` that describes the releases and the markdown pages. The front end reads that configuration and turns it, and each fetched tracklist, into HTML strings for the router's routes.

This project models both parts as pure functions and proves properties about them. The modules follow the program's structure:

- `Wrappers`: `Option`.
- `Text`: the string operations both parts rely on:
  - Python 2 ASCII lower-casing;
  - character replacement;
  - joining the parts of a `+=` loop;
  - JavaScript's printing of a counter;
  - reading an attribute value back out of generated markup.
- `Paths`: the `posixpath` functions the builder uses (`basename`, `dirname`, two-argument `join`, `splitext`).
- `Naming`:
  - the `^\d{1,2} ` title clean-up;
  - slugs;
  - the track, notes, artwork and page classification.
- `Dub`:
  - the per-directory step of the releases walk: artist inference, the file loop, emission and the release and playlist records;
  - the releases and pages maps;
  - the `cassetteJSON` catalog.
- `Markup`:
  - the release page from `releaseMarkup`: title, artwork and the tracklist with its running `trackId`;
  - `allReleasesMarkup`;
  - the releases landing page.
- `Router`:
  - the menu item template;
  - the route table;
  - the wildcard route's fallback.

These are the modelling choices:

- **Directory walk.** What `os.walk` reports is an input: a sequence of `WalkedDir(root, files)` in walk order. Each file comes with its bare name and the path `os.path.relpath` gives it. `os.path.relpath` itself, which depends on the working directory, is a function carried by `Dub.Layout`; it turns the tracklist path into the `playlist` value of a release. `Dub.WalkedWith` states that a directory's file paths are that function applied to `os.path.join(root, name)`, as the walk computes them.
- **`os.path.exists`.** It is membership in a snapshot set `fs` of existing paths. The empty path never exists.
- **`dub.py` is Python 2.** `str.lower()` changes only `A`–`Z`, and `\d` is `[0-9]`.
- **Own tracklist.** As written, `dub.py` looks for a release's own `tracklist.jspf` under the directory's bare name relative to the working directory (`os.path.join(current_dir, …)`), not under `root`. The model keeps that (`Dub.TracklistPath`).
- **Shared tracklist names.** The generated tracklist is named after the directory alone (`<dir>-tracklist.jspf` in the output directory). So `releases/a1/album` and `releases/a2/album` get different keys but the same tracklist path, and the later write replaces the earlier playlist. The model keeps that as written: `Dub.Tracklists` is keyed by path.
- **JavaScript objects.** The configuration objects the front end reads are association lists in `Object.keys` order. Absent properties are `Option`s. A missing release makes `releaseMarkup` and the landing page fail with a `TypeError` in the source; that is `None` here: nothing is rendered.
- **Concatenating an absent property** yields the text `undefined` (`Markup.JsText`).
- **`decodeURI` and `stripTags`** are function parameters.

## Model

| member | source | states |
|---|---|---|
| Naming.CleanTitle | dub.py:126 | The anchored pattern removes one or two leading ASCII digits and the space after them, at most once. When no such prefix exists the title is unchanged. The result is a suffix of the input, at most 3 characters shorter. |
| Naming.CleanTitleExamples | dub.py:126 | "01 deadweight" becomes "deadweight" and "7 intro" becomes "intro". "01 02 outro" loses only the first prefix. |
| Naming.CleanTitleKeeps | dub.py:126 | "123 x" (three digits) and "01intro" (no space) are left unchanged. |
| Naming.Slug | dub.py:156-159 | `replace(" ", "-").lower()` works character by character: every space becomes `-`, every `A`–`Z` its lower-case letter, and every other character stays. So the slug has the input's length, no space and no upper-case letter. |
| Naming.SlugIdempotent | dub.py:156-159 | Slugging a slug changes nothing. |
| Naming.SlugOfJoined | dub.py:156 | Slugging "artist/album" gives the two slugs joined by '/', as the key is built. |
| Naming.TrackFileByExtension | dub.py:123-127 | A file `stem.ext` is a track exactly when ext, lower-cased, is mp3 or wav. Its title is the lower-cased stem, cleaned. |
| Naming.TrackExtension | dub.py:123-127 | The dotted extension matches `.mp3`/`.wav` case-insensitively exactly when the bare extension matches mp3/wav. |
| Naming.NumericPrefixLower | dub.py:124-126 | Lower-casing before the clean-up neither creates nor destroys a numeric prefix. |
| Naming.TrackTitlePrefix | dub.py:124-126 | A track's title is the lower-cased stem with exactly its numeric prefix removed, or the whole lower-cased stem when it has none. |
| Naming.HiddenFileIsNotTrack | dub.py:123-127 | A hidden file such as `.mp3` or `..wav`, any run of leading dots followed by a dot-free name, has no extension and is never a track. |
| Naming.PageExamples | dub.py:183-187 | "02 About.MD" is a page titled "About": the extension check ignores case and the title keeps it. "Notes.md" is not the notes file. |
| Paths.SplitExt | dub.py:123-124 | The stem and extension concatenate to the name. The extension is empty or one dot followed by text with no dot and no '/'. |
| Paths.SplitExtAtLastDot | dub.py:123-124 | A name with a non-dot character before its last dot splits at that dot. |
| Paths.DotFileHasNoExt | dub.py:123 | A name made of one or more leading dots followed by text with no dot has an empty extension: `splitext` skips leading dots. |
| Paths.ChildPath | dub.py:98-113 | For a directory reported below a parent, `dirname` gives the parent and `basename` gives the entry's name. |
| Dub.TopLevelReleaseHasNoArtist | dub.py:112-115 | `releases/album` has the empty artist. |
| Dub.NestedReleaseArtist | dub.py:98-115 | `releases/artist/album` has artist `artist` and directory name `album`. |
| Dub.Positions | dub.py:117-136 | The positions of a flag list are exactly its flagged indices, in strictly increasing order. |
| Dub.Artist | dub.py:112-115 | The artist is empty for a directory directly under the releases directory. Otherwise, at any depth, it is `basename(dirname(root))`, the name of the parent directory, a single path component. |
| Dub.PickedAtPositions | dub.py:117-136 | Keeping the images of the flagged elements puts the image of the element at the k-th flagged position at place k. |
| Dub.ScanTracksPicked | dub.py:117-136 | The loop's tracks are the tracks made from the track files, in file-list order. |
| Dub.ScanTracksAtPositions | dub.py:117-136 | The file loop makes one track per track file, in file-list order, each made from the file at that position. |
| Dub.ScanTracksInOrder | dub.py:117-136 | Each track has the file's relative path as location and the cleaned lower-cased name as title. It has a creator exactly when the artist is non-empty, and the creator is then the artist. |
| Dub.HasTracksIff | dub.py:117-136 | A directory yields tracks exactly when it lists a track file. |
| Dub.LastFlagged | dub.py:107-144 | A path that each match overwrites ends as the last match, or the initial value when nothing matches. It is always the initial value or a matching file's path. |
| Dub.ScanLastWins | dub.py:107-144 | The notes path is the last file named exactly `notes.md`, or ''. The artwork path is the last file with one of the four artwork names, or the default artwork. |
| Dub.ReleaseKey | dub.py:152-159 | The key is `slug(artist + "/" + dir)` with an artist and `slug(dir)` without; it has no space. |
| Dub.TracklistPath | dub.py:98-102 | An existing own `tracklist.jspf` under the directory's name wins. Otherwise the tracklist goes to `<dir>-tracklist.jspf` in the output directory. |
| Dub.OwnTracklistLocation | dub.py:98-100 | The own tracklist is `<dir>/tracklist.jspf`, relative to the working directory: its dirname is the bare directory name. |
| Dub.OutputTracklistLocation | dub.py:102 | The generated tracklist sits in the output directory, named `<dir>-tracklist.jspf`. |
| Dub.TracklistLocation | dub.py:98-102 | Where the tracklist lands, in both cases, by dirname and basename. |
| Dub.ProcessDir | dub.py:98-173 | A directory emits a release exactly when it is not the releases directory and lists a track file. |
| Dub.EmittedRecords | dub.py:98-171 | Release and playlist titles are the directory name, with or without an artist. The key is the release key. The tracklist is written to the tracklist path, and the release's `playlist` is that path made relative by `os.path.relpath`. The playlist's creator is present exactly when there is an artist. |
| Dub.EmittedTracks | dub.py:117-172 | An emitted playlist lists one track per track file, in file order, each made from its file. |
| Dub.EmittedTrackLocations | dub.py:117-136 | When the file paths come from the walk, the track made from the k-th track file is located at `relpath(join(root, name))` of that file. |
| Dub.EmittedPaths | dub.py:161-164 | The release's notes and artwork are the paths the file loop ends with, each kept exactly when it exists. |
| Dub.EmittedNotes | dub.py:107-164 | An emitted release's notes are the path of the last file named exactly `notes.md` when that path exists, and absent otherwise. So notes come only from a listed `notes.md` that exists. |
| Dub.EmittedArtwork | dub.py:108-162 | An emitted release's artwork is the path of the last file with one of the four artwork names, or the default artwork when there is none, and is kept exactly when that path exists. |
| Dub.CollectLastWins | dub.py:165 | Storing entries into a dict one after another yields exactly the stored keys. Each key holds the last value stored under it. |
| Dub.KeyHasEmitter | dub.py:93-165 | Every key of the releases map was emitted by some directory of the walk. |
| Dub.EmittedKeyPresent | dub.py:93-165 | Every emitted key is in the releases map. |
| Dub.ReleaseKeys | dub.py:93-165 | A key is in the releases map exactly when some directory emits it. |
| Dub.ReleasesLastWins | dub.py:165 | When two directories emit the same key, the later release replaces the earlier one. |
| Dub.PageKeys | dub.py:179-190 | The stored page titles are exactly the cleaned titles of the `.md` files. |
| Dub.PageLastWithTitle | dub.py:190 | The last markdown file with a title is the last entry stored under that title. |
| Dub.PagesCollected | dub.py:178-193 | The pages map holds the markdown titles plus `releases`. `releases` is the empty entry, whatever page had that title. Every other title holds the location and title of its last file. |
| Dub.PageCountIsMarkdownTitles | dub.py:204 | The reported page count, `len(pages) - 1`, is the number of distinct markdown titles other than `releases`. |
| Dub.BuildCatalog | dub.py:195-198 | The catalog keeps the given build time and always has the `releases` page. Its page count is as above. Its release keys are exactly the emitted keys. |
| Markup.Lookup | assets/js/application.js:87 | Looking up a key finds a release exactly when an entry has that key, and returns that entry's release. |
| Markup.BuildItems | assets/js/application.js:112-126 | The loop with its running `trackId` writes the items of all tracks, in playlist order. |
| Markup.BuildTracklist | assets/js/application.js:111-128 | The tracklist is the `<ul class="tracklist pt-list">` list of all items, and is empty exactly when the playlist has no or an empty `track` list. |
| Markup.ItemIds | assets/js/application.js:112-125 | The track at position i gets id i: permalink `release/<title>/track/<i>`, sound id `<title>_<i>`, href its location, and its title followed by the artist span. |
| Markup.ItemAttributes | assets/js/application.js:120-123 | The `data-pushtape-permalink` and `data-pushtape-sound-id` values read back from a written item are the item's permalink and sound id, in either branch. |
| Markup.ItemIdsInMarkup | assets/js/application.js:112-125 | Read back from the written `<li>` of the track at position i, the permalink is `release/<title>/track/<i>` and the sound id `<title>_<i>`. |
| Markup.ItemIdsDistinct | assets/js/application.js:120-125 | Different tracks of one list get different permalinks and different sound ids. |
| Markup.OneHighlight | assets/js/application.js:119-124 | An item is highlighted exactly when its id is the route's track number. So one item is highlighted when that number is within the list, and none otherwise. |
| Markup.HighlightKeepsAnchor | assets/js/application.js:119-124 | The highlighted and the plain branch write the same link and differ only in the opening `<li>` tag. |
| Markup.TitleLinkTarget | assets/js/application.js:89-107 | The title links to `release/<title>` when the playlist has a non-empty title, and to the bare route title otherwise. |
| Markup.ArtworkFragment | assets/js/application.js:108-110 | The artwork block is empty exactly when the release has no or an empty `artwork`. |
| Markup.ArtworkShowsRelease | assets/js/application.js:108-110 | A present artwork block's image source is the release's artwork. |
| Markup.ReleaseMarkup | assets/js/application.js:84-130 | Nothing is rendered when the decoded route title is not a release. Otherwise the content is title, artwork and tracklist in that order, and the document title appends the title heading with its tags stripped. |
| Markup.ReleaseSummary | assets/js/application.js:149-160 | A summary exists exactly when the decoded key is a release. |
| Markup.SummaryLinksToRelease | assets/js/application.js:154-159 | A summary links to `release/<key>`, with the key not decoded. |
| Markup.SummaryHeading | assets/js/application.js:151-159 | The summary's heading is the release's title when it has one, and the decoded key otherwise. |
| Markup.ListItemsInOrder | assets/js/application.js:185-189 | The landing loop succeeds exactly when every key has a summary, and then writes one `<li>` per key, in key order. |
| Markup.AllSummariesExist | assets/js/application.js:152-187 | Every key has a summary exactly when every decoded key names a release. |
| Markup.ReleasesLanding | assets/js/application.js:183-198 | With no releases, or an empty releases object, the page is the "No releases were found." message. Otherwise it is the list of all summaries in key order, or nothing when a decoded key names no release. The document title ends in `releases`. |
| Router.MenuItemLinksToPage | assets/js/application.js:5 | A menu item links to the page it names. |
| Router.MenuItemAt | assets/js/application.js:37-48 | The menu holds the item of each page, after the items of all earlier pages. |
| Router.RouteTable | assets/js/application.js:164-217 | Routes are the page names plus the four fixed patterns. A page of the same name as a fixed route is replaced by it, and every other page name routes to its static page. |
| Router.Fallback | assets/js/application.js:208-217 | The wildcard route goes to the home page, and marks its link active, when the setting is non-empty. Otherwise it goes to `releases` without marking a link. |
| Router.FallbackLeavesWildcard | assets/js/application.js:183-217 | When the home page is unset or is a page name (other than `*`), the fallback reaches a registered route that is not the wildcard. |
| Text.Lower | dub.py:123-124 | Python 2 lower-casing keeps the length, maps each `A`–`Z` to its lower-case letter (code point plus 32) and changes nothing else. |
| Text.ReplaceChar | dub.py:156-159 | `replace` of one character by another puts the new character exactly where the old one was and keeps every other character. |
| Text.DecimalInjective | assets/js/application.js:120 | Different track ids print differently. |

## Left out

- File-system effects of `dub.py`:
  - directory creation, file opening, `json.dump` formatting and key sorting, printing and the verbose messages;
  - the order `os.walk` reports entries in, which is taken as given.
- `os.path.relpath`: each file's relative path is an input, and the function itself is a parameter (`Dub.Layout`). How it normalises paths against the working directory is not modelled.
- `datetime.utcnow()`: the build time is a parameter of `Dub.BuildCatalog`.
- `Dub.Tracklists`: this map of tracklist files, keyed by path, is built with the same last-write-wins dict as the releases map (`Dub.CollectLastWins` covers it). No separate lemma is stated about it.
- `assets/js/pushtape-player.init.js`: player configuration, with no logic.
- Browser and library effects:
  - the DOM, jQuery, Bind.js, `window.scrollTo`;
  - the `active` link classes;
  - the click handlers.

  `Router.Fallback` returns the href it would mark active instead.
- Navigo's path matching: the model stops at the route table and the fallback's target.
- The static page handler (`assets/js/application.js:163-181`): it fetches a page and shows it. Only its registration in `Router.RouteTable` is modelled.
- Asynchronous fetching:
  - the fetched playlist is a parameter of `Markup.ReleaseMarkup`;
  - the notes that are appended later (`assets/js/application.js:131-137`), and `marked`, are not modelled;
  - races between overlapping navigations are not modelled.
- `decodeURI` throwing on malformed input: `decode` is a total function parameter.
- JavaScript objects:
  - inherited properties such as `constructor` are not modelled (`Markup.Lookup` sees own keys only);
  - an object cannot repeat a key, but the association lists of the model may. On such a list `Markup.Lookup` finds the first entry, where `JSON.parse` would keep the last value, and the landing page lists the key twice. Lists that come from parsed JSON have distinct keys; no contract relies on them being distinct.
  - `Object.keys` puts integer-like keys first, which the model does not do: keys come in entry order.
- Markup.OneHighlight: the track number is a natural number compared with `==` on numbers. The source's loose `==` between the route's string and the counter would also match strings such as `"01"`.
- Router.MenuItemLinksToPage: `this.safe` and `decodeEntities` are treated as cancelling out. The page name is substituted as is.
- Router.MenuItemAt: Bind.js gets `''` when the configuration has no `pages`. What it renders then is not modelled; the menu is built from a list of page names.
