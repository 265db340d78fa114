# Portfolio site: content indexing, catalog and project modal

This project models, in Dafny, the sequential logic of a portfolio web site. It covers three parts.

- **Build-time content indexing.**
  - The gallery indexer (`scripts/generate-galleries.js`) classifies a project folder's files by extension. It drops dotfiles, the manifest and the description, sorts the rest in natural order and writes `gallery.json`. Titles from the previous manifest are carried over.
  - The catalog builder (`scripts/generate-projects.js`) reads each folder's `description.md` with a small hand-written front-matter parser. It builds one catalog entry per described folder, with defaults and a cover image taken from the gallery, and sorts the catalog newest first.
- **The project modal's helpers** (`src/components/projectModal/utils.ts` and `src/components/projectModal/ProjectModal.tsx`):
  - `slugify`, `getFolderFromImagePath` and the reserved front-matter keys;
  - the table of contents taken from markdown headings;
  - gallery path qualification and the extra-metadata filter;
  - the circular image index that the arrow buttons and keys move.
- **The older modal** (`src/components/ProjectModal.tsx`) and **the category filter** of the portfolio grid (`src/components/PortfolioGrid.tsx`). The older modal holds verbatim copies of `slugify`, `extractToc`, `getFolderFromImagePath`, the reserved keys, the gallery map and the index updates. Those are modelled once, and the table below cites the current files for them. In the older file they sit at src/components/ProjectModal.tsx:45-50 (`slugify`), 52-65 (`extractToc`), 94-101 (reserved keys), 117-130 (folder and gallery), 132-142 (`nextImage`, `prevImage`) and 143-145 (extra metadata). Its own parts are modelled in `LegacyModal`: the gallery it loads itself, with the cover as fallback, and the view reset.

The modules follow the program:

- `Wrappers`: `Option` and `Result`.
- `Seqs`: `filter`, `map`, the stable sort of `Array.prototype.sort`, and subsequences.
- `Text`: the JavaScript string built-ins the code uses. These are `trim`, `\s`, ASCII `toLowerCase`, `split`, `indexOf`, `includes` and code-point string order.
- `NaturalSort`: `naturalSort`.
- `Galleries`: `generate-galleries.js`.
- `Frontmatter`: `parseFrontmatter`. `FrontmatterExample` holds a worked example.
- `Projects`: `generateProjects`.
- `ModalUtils`: `utils.ts`.
- `ProjectModal`: the current modal.
- `LegacyModal`: the older modal.
- `PortfolioGrid`: the category filter.

File-system calls are inputs and outputs of the model:

- a directory listing is a `seq<string>`;
- a file that may be missing or unreadable is an `Option`: for gallery.json `None` is missing or unreadable, for description.md it is missing (see Left out for an unreadable one);
- a parsed JSON file is a datatype;
- a missing content root is an `Err` result.

The loops of the source are methods proved equal to specification functions:

- `Frontmatter.ReadLines` and `Frontmatter.ParseFrontmatter`;
- `Projects.GenerateProjects`;
- `Galleries.GenerateAll`.

The properties are proved about those functions. The React state of the modals and the grid is modelled as classes whose methods update their fields.

Where the specification and the code disagree, the model follows the code:

- The code also falls back to the fixed cover name when the first image entry has an empty `src` (generate-projects.js:105). The specification names only a missing manifest or a missing image entry.
- The code sorts dates as plain strings, so a non-ISO date keeps its own place in the order and is not sorted as the empty string.
- A `date:` header with nothing after it stores an empty list, and the source's comparator then throws. The model handles that list rather than excluding it; see Findings.

## Model

| member | source | states |
|---|---|---|
| Galleries.LastDot | scripts/generate-galleries.js:10 | the index of the last `.` of a name, with no dot after it, or -1 when the name has no dot |
| Galleries.Extname | scripts/generate-galleries.js:10 | `path.extname`: the name's suffix from its last dot; `ExtnameOfSuffix` and `ExtnameIgnoresCase` state its properties |
| Galleries.LastDotAt | scripts/generate-galleries.js:10 | a dot with no dot after it is the one `extname` starts from |
| Galleries.ExtnameOfSuffix | scripts/generate-galleries.js:10 | a name `stem + ext` whose only dot starts `ext` has extension `ext` |
| Galleries.ExtnameIgnoresCase | scripts/generate-galleries.js:10 | the extension of the lower-cased name is the lower-cased extension |
| Galleries.LastDotIgnoresCase | scripts/generate-galleries.js:10 | lower-casing a name does not move its last dot |
| Galleries.GetType | scripts/generate-galleries.js:9-14 | `getType`: image for the five image extensions, video for the three video ones, none otherwise, after lower-casing; the lemmas below state it |
| Galleries.GetTypeBySuffix | scripts/generate-galleries.js:9-14 | `getType` depends only on the lower-cased extension |
| Galleries.GetTypeIgnoresCase | scripts/generate-galleries.js:9-14 | a name and its lower-cased form get the same type |
| Galleries.TypeOfExtExamples | scripts/generate-galleries.js:6-14 | `.jpg` is an image, `.webm` a video and `.txt` neither |
| Galleries.TypeExampleImage | scripts/generate-galleries.js:9-14 | `a.JPG` is an image |
| Galleries.TypeExampleVideo | scripts/generate-galleries.js:9-14 | `d.webm` is a video |
| Galleries.TypeExampleOther | scripts/generate-galleries.js:9-14 | `c.txt` has no type |
| Galleries.FirstWithSrc | scripts/generate-galleries.js:48 | `find` by src: the first matching index, no earlier match, or -1 when nothing matches |
| Galleries.PriorMedia | scripts/generate-galleries.js:35-36 | `existingGallery?.media ?? []`; `MissingManifestIsEmpty` and `Written` state how it reads a missing and a written manifest |
| Galleries.BuildEntries | scripts/generate-galleries.js:43-56 | the `map` and `filter(Boolean)` steps; `BuildEntriesSrcs` states which files it keeps and how it types and titles them |
| Galleries.GenerateGallery | scripts/generate-galleries.js:29-56 | `generateGallery`'s media list; `GeneratedEntries`, `GeneratedInNaturalOrder`, `GeneratedSrcsDistinct` and `Idempotent` state its properties |
| Galleries.BuildEntriesSrcs | scripts/generate-galleries.js:43-56 | the srcs written are the typed files in listing order; each entry is typed by `getType` and titled from the first previous entry with its src, or `""` |
| Galleries.GeneratedEntries | scripts/generate-galleries.js:38-56 | a file is written exactly when it is listed, is not a dotfile, the manifest or the description, and has a type; entries are typed by `getType`; titles come from the previous manifest; the output is no longer than the listing |
| Galleries.GeneratedInNaturalOrder | scripts/generate-galleries.js:42 | the written entries are in natural order of their file names |
| Galleries.GeneratedSrcsDistinct | scripts/generate-galleries.js:38-56 | no two entries share a src when the listing repeats no name |
| Galleries.MissingManifestIsEmpty | scripts/generate-galleries.js:35-36 | a missing or unreadable manifest and one without `media` give the same output as `{media: []}` |
| Galleries.BuildEntriesSameTitles | scripts/generate-galleries.js:48-53 | two previous manifests that title every media file alike give the same output |
| Galleries.TitleReadBack | scripts/generate-galleries.js:48-53 | reading back a written manifest finds, for every written file, the title written for it |
| Galleries.Idempotent | scripts/generate-galleries.js:38-69 | feeding the written manifest back in with the same listing reproduces the same media list |
| Galleries.MissingTitles | scripts/generate-galleries.js:58-60 | the warning list is exactly the image entries whose title is empty or whitespace, in order |
| Galleries.Written | scripts/generate-galleries.js:67-69 | reading back the manifest written gives one item per entry, in order, with the entry's type name, `src` and title |
| Galleries.WrittenFor | scripts/generate-galleries.js:85 | one manifest per directory |
| Galleries.GenerateAll | scripts/generate-galleries.js:74-88 | a missing root is the fatal error; otherwise one manifest for each directory of the root, in listing order |
| Galleries.RerunWritesSame | scripts/generate-galleries.js:74-88 | a second run over an unchanged tree, reading the first run's manifests, writes the same manifests |
| Text.TrimEmptyIffAllSpace | scripts/generate-galleries.js:59 | `trim() === ""` holds exactly for whitespace-only strings |
| Text.SplitJoin | scripts/generate-projects.js:24 | splitting lines joined by a separator none of them holds gives the lines back |
| NaturalSort.DigitRun | scripts/generate-galleries.js:17 | the leading run of digits is maximal |
| NaturalSort.NaturalLe | scripts/generate-galleries.js:16-18 | `naturalSort` not positive; `NaturalLeIsTotalPreorder`, `NaturalLeIgnoresCase` and `ImgNames` state its properties |
| NaturalSort.NaturalLeIsTotalPreorder | scripts/generate-galleries.js:16-18 | the natural comparator is total and transitive, so the sort yields an ordered list |
| NaturalSort.TokensLeTotal | scripts/generate-galleries.js:17 | any two token sequences compare one way or the other |
| NaturalSort.TokensLeTransitive | scripts/generate-galleries.js:17 | the token order is transitive |
| NaturalSort.TokensIgnoreCase | scripts/generate-galleries.js:17 | a name tokenises as its lower-cased form does |
| NaturalSort.DigitRunIgnoresCase | scripts/generate-galleries.js:17 | lower-casing does not change a digit run |
| NaturalSort.NaturalLeIgnoresCase | scripts/generate-galleries.js:17 | the comparison ignores letter case on either side |
| NaturalSort.TokensRun | scripts/generate-galleries.js:17 | a maximal run of digits is one numeric token |
| NaturalSort.CommonPrefix | scripts/generate-galleries.js:17 | a common prefix does not change the comparison |
| NaturalSort.ImgNames | scripts/generate-galleries.js:16-18 | `img1.jpg` < `img2.jpg` < `img10.jpg`, strictly, each way round |
| NaturalSort.NumericOrderExample | scripts/generate-galleries.js:42 | sorting `img2.jpg, img10.jpg, img1.jpg` gives `img1.jpg, img2.jpg, img10.jpg` |
| Frontmatter.StripBom | scripts/generate-projects.js:12 | the result is the text less at most its first character, and it is shorter exactly when the text starts with U+FEFF |
| Frontmatter.ReplaceCrlf | scripts/generate-projects.js:13 | the rewrite never lengthens the text |
| Frontmatter.ReplaceCrlfNoCr | scripts/generate-projects.js:13 | text without a carriage return is unchanged |
| Frontmatter.CrlfRoundTrip | scripts/generate-projects.js:13 | converting LF to CRLF and then normalising gives back the LF text |
| Frontmatter.StripBomCrlf | scripts/generate-projects.js:12-13 | dropping the BOM and converting line endings commute |
| Frontmatter.BomIgnored | scripts/generate-projects.js:12 | a leading byte-order mark does not change the parse |
| Frontmatter.CrlfIgnored | scripts/generate-projects.js:13 | a text with Windows line endings parses exactly as with Unix ones |
| Frontmatter.NoOpeningDelimiter | scripts/generate-projects.js:16 | text not starting with `---` gives no data and the normalised text as content |
| Frontmatter.NoClosingDelimiter | scripts/generate-projects.js:18-19 | with no `\n---` at or after index 3 there is no data and the whole normalised text is content |
| Frontmatter.ClosedHeader | scripts/generate-projects.js:16-24 | for `---`, a header with no line starting `---`, then `\n---` and a rest, the data are read from the split trimmed header and the content is the trimmed rest |
| Frontmatter.JoinedHeaderOpen | scripts/generate-projects.js:18 | lines none of which starts with `---` join into a header in which `indexOf("\n---")` finds nothing |
| Frontmatter.DelimitedLines | scripts/generate-projects.js:16-57 | a closed document whose header lines hold no line feed and do not start with `---`, whose first line does not start and whose last line does not end with whitespace, gives exactly the data those lines give, and the trimmed rest as content |
| Frontmatter.KeyRun | scripts/generate-projects.js:40 | the leading run of key characters is maximal |
| Frontmatter.MatchKeyLineComplete | scripts/generate-projects.js:40-43 | every line of the form key, colon, rest without a line break matches with that key and the trimmed rest |
| Frontmatter.MatchKeyLineSound | scripts/generate-projects.js:40-43 | every match is a line of that form, and its value is the trimmed rest |
| Frontmatter.KeyLineAt | scripts/generate-projects.js:40 | a run of key characters that a colon ends is a key followed by a colon |
| Frontmatter.NoKeyAtStart | scripts/generate-projects.js:40 | a line not starting with a key character does not match |
| Frontmatter.DashSpaceNotKey | scripts/generate-projects.js:40 | a line starting `- ` does not match the key pattern |
| Frontmatter.StripQuotes | scripts/generate-projects.js:48-49 | the value changes only by dropping one pair of wrapping quotes, and it does drop them whenever both ends are the quote and nothing between them is a line terminator |
| Frontmatter.ValueExamples | scripts/generate-projects.js:47-55 | `"Test"` gives `Test`; `'x'` and `"'x'"` give `x`; an empty value and `""` give an empty list; `"a'` is kept |
| Frontmatter.ReadLines | scripts/generate-projects.js:26-57 | the loop's data equals the left-to-right fold of the line steps |
| Frontmatter.Step | scripts/generate-projects.js:30-56 | one loop iteration; `ItemStep`, `KeyLineSets` and `OrphanItemIgnored` state its three cases |
| Frontmatter.Run | scripts/generate-projects.js:26-57 | the loop's state after the given lines; `ReadLines` is proved equal to it and `DeclaredKeys`, `ItemsCollect` state what it holds |
| Frontmatter.RunSnoc | scripts/generate-projects.js:29 | the state after one more line is one more step |
| Frontmatter.ParseFrontmatter | scripts/generate-projects.js:10-60 | data and content are those of the parse specification |
| Frontmatter.ParseSpec | scripts/generate-projects.js:10-60 | `parseFrontmatter`'s result; `ParseFrontmatter` is proved equal to it and `BomIgnored`, `CrlfIgnored`, `NoOpeningDelimiter`, `NoClosingDelimiter` state its properties |
| Frontmatter.ParseNormalized | scripts/generate-projects.js:16-24 | the delimiter search and the header and content slices, on normalised text; `ClosedHeader` states what it gives for a closed header |
| Frontmatter.KeyLineView | scripts/generate-projects.js:30-43 | a key line is seen as its key and trimmed value, and not as an item |
| Frontmatter.BareKeyLine | scripts/generate-projects.js:40-52 | a bare `key:` line is a key line with an empty value, seen as that key and no item |
| Frontmatter.BareKeyShape | scripts/generate-projects.js:40 | a bare `key:` line, after `trimEnd`, has the form of a key line with an empty rest |
| Frontmatter.ColonNotTrimmed | scripts/generate-projects.js:30 | `trimEnd` leaves a line ending in a colon unchanged |
| Frontmatter.KeyLineSets | scripts/generate-projects.js:40-55 | a key line sets the key to its value, overwriting any earlier one, and makes it current |
| Frontmatter.NotItem | scripts/generate-projects.js:33 | a key line is never a list item |
| Frontmatter.NoItemAfterTwoNonBlanks | scripts/generate-projects.js:33 | a line whose first two characters are not blank is an item only if it starts `- ` |
| Frontmatter.ItemNotKey | scripts/generate-projects.js:33-40 | an item line never matches the key pattern |
| Frontmatter.ViewExclusive | scripts/generate-projects.js:33-40 | no line is both an item and a key line |
| Frontmatter.ViewsExclusive | scripts/generate-projects.js:29-40 | that holds for every line of a header |
| Frontmatter.OrphanItemIgnored | scripts/generate-projects.js:33 | a `- item` line before any key line changes nothing |
| Frontmatter.ItemStep | scripts/generate-projects.js:34-35 | one item line appends its trimmed text to the current key's list, turning a string into a list |
| Frontmatter.ItemsCollect | scripts/generate-projects.js:33-37 | item lines after a key append their texts in order to that key's list; no other key changes and the key stays current |
| Frontmatter.ItemsFrom | scripts/generate-projects.js:33-37 | the same, read from any state whose current key is set |
| Frontmatter.RunAppend | scripts/generate-projects.js:29 | reading two runs of lines is reading the second from the state the first leaves |
| Frontmatter.DeclaredKeys | scripts/generate-projects.js:29-57 | the data holds exactly the keys that key lines name, and the current key is one of them |
| FrontmatterExample.SampleData | scripts/generate-projects.js:29-57 | `title: Test Project`, `tags:`, `- a`, `- b` give `{title: "Test Project", tags: ["a", "b"]}` |
| FrontmatterExample.DocumentParsed | scripts/generate-projects.js:10-60 | the file `---`, `title: Test Project`, `tags:`, `- a`, `- b`, `---`, `Body` gives the title, the list `a`, `b` and the content `Body` |
| Projects.FirstImage | scripts/generate-projects.js:103 | the first media entry of type image, or none when there is none |
| Projects.FirstImageAt | scripts/generate-projects.js:103 | the first image entry is the one with no image entry before it |
| Projects.CoverImage | scripts/generate-projects.js:103-107 | the preview image; `CoverIsFirstImage` and `CoverFallback` state both cases |
| Projects.EntryFor | scripts/generate-projects.js:109-116 | the catalog entry with its defaults; `PlainDescriptionDefaults` and `DeclaredFieldsKept` state both cases |
| Projects.CoverIsFirstImage | scripts/generate-projects.js:103-107 | the cover is `/portfolio-images/<folder>/<src>` of the first image entry when its src is not empty |
| Projects.CoverFallback | scripts/generate-projects.js:105-107 | with no image entry, or an empty src, the cover is `/portfolio-images/<folder>/MainRoom.JPG.jpg` |
| Projects.UnreadableGalleryFallback | scripts/generate-projects.js:99-107 | a missing, unreadable or `media`-less gallery.json gives the fallback cover |
| Projects.ReadEntry | scripts/generate-projects.js:96-116 | the entry built from the parsed front matter and the gallery of one described folder |
| Projects.GenerateProjects | scripts/generate-projects.js:72-127 | a missing root is the fatal error; otherwise the loop's entries, sorted newest first |
| Projects.CollectedEntries | scripts/generate-projects.js:85-117 | exactly one entry per folder with a description, in folder order, each read from that folder |
| Projects.EntryIds | scripts/generate-projects.js:110 | every entry's id is its folder's name |
| Projects.PlainDescriptionDefaults | scripts/generate-projects.js:109-116 | a description without front matter gives title = folder, category `Uncategorised`, date and location `""` |
| Projects.DeclaredFieldsKept | scripts/generate-projects.js:111-114 | a title, category, date or location the front matter sets is taken over unchanged |
| Projects.NewerFirstIsTotalPreorder | scripts/generate-projects.js:120 | the date comparator is total and transitive |
| Projects.NewerFirst | scripts/generate-projects.js:120 | the comparator is not positive, with a list date read as no date; `NewerFirstIsTotalPreorder` states it is a total preorder and `CompareAsWritten` ties it to the source's comparator on string dates |
| Projects.CatalogSpec | scripts/generate-projects.js:72-127 | the catalog written, or the error for a missing root; `GenerateProjects` is proved equal to it and `CatalogOrdered` states its order |
| Projects.EmptyDateLeast | scripts/generate-projects.js:120 | no date sorts below the empty date |
| Projects.CatalogOrdered | scripts/generate-projects.js:120 | the catalog is a permutation of the collected entries, dates never increase along it, and undated entries come after every dated one |
| Projects.SortExample | scripts/generate-projects.js:120 | entries dated 2023-05, none and 2024-01 sort as 2024-01, 2023-05, none |
| Projects.CompareAsWritten | scripts/generate-projects.js:120 | the comparator as written throws exactly when `b`'s date is a list; on two string dates its sign agrees with `NewerFirst` both ways |
| Projects.EmptyDateHeader | scripts/generate-projects.js:51-52 | an empty `date:` header leaves the entry an empty-list date, which makes the comparator as written throw whenever the entry is the receiver, while the model's sort key reads it as no date |
| ModalUtils.Hyphenate | src/components/projectModal/utils.ts:17 | replacing whitespace runs by hyphens never lengthens a string |
| ModalUtils.HyphenateChars | src/components/projectModal/utils.ts:17 | the result holds only hyphens and non-whitespace characters of the input |
| ModalUtils.HyphenateNoSpace | src/components/projectModal/utils.ts:17 | a string without whitespace is unchanged |
| ModalUtils.HyphenateRun | src/components/projectModal/utils.ts:17 | one maximal whitespace run becomes exactly one `-` and the rest is hyphenated on its own |
| ModalUtils.HyphenateRunStart | src/components/projectModal/utils.ts:17 | a leading whitespace run becomes one `-` |
| ModalUtils.Slugify | src/components/projectModal/utils.ts:13-17 | `slugify`; `SlugifyCharset`, `SlugifyNoSpace`, `SlugifyIdempotent` and `SlugifyLength` state its properties |
| ModalUtils.SlugifyCharset | src/components/projectModal/utils.ts:13-17 | every character of a slug is in `[a-z0-9_-]` |
| ModalUtils.SlugifyNoSpace | src/components/projectModal/utils.ts:13-17 | no whitespace survives in a slug |
| ModalUtils.SlugifyIdempotent | src/components/projectModal/utils.ts:13-17 | `slugify(slugify(s)) == slugify(s)` |
| ModalUtils.SlugifyLength | src/components/projectModal/utils.ts:13-17 | a slug is never longer than its text |
| ModalUtils.FolderFromImagePath | src/components/projectModal/utils.ts:19-22 | a defined folder holds no `/` |
| ModalUtils.FolderDefinedIff | src/components/projectModal/utils.ts:19-22 | the folder is defined exactly when the path has at least two slashes |
| ModalUtils.NoFolder | src/components/projectModal/utils.ts:19-22 | a path with fewer than two slashes has no folder |
| ModalUtils.ThirdSegment | src/components/projectModal/utils.ts:19-22 | the folder is the third `/`-separated piece, up to the next slash |
| ModalUtils.LastSegment | src/components/projectModal/utils.ts:19-22 | or up to the end when no slash follows |
| ModalUtils.CoverPathFolder | src/components/projectModal/utils.ts:19-22 | `getFolderFromImagePath("/portfolio-images/" + F + "/" + file) == F` for a folder F without a slash |
| ModalUtils.CoverFolder | scripts/generate-projects.js:105-107 | the folder of every cover the catalog builder writes is the project's folder |
| ModalUtils.CatalogFieldsReserved | src/components/projectModal/utils.ts:24-31 | every front-matter field the catalog builder reads is reserved |
| ProjectModal.HashRun | src/components/projectModal/ProjectModal.tsx:37 | the run of leading `#` is maximal |
| ProjectModal.HashRunAtLeast | src/components/projectModal/ProjectModal.tsx:37 | the hash run covers every leading `#` |
| ProjectModal.HashRunOf | src/components/projectModal/ProjectModal.tsx:37 | a line with `level` leading `#` and then another character has hash run `level` |
| ProjectModal.TrimStartTwice | src/components/projectModal/ProjectModal.tsx:37 | what the greedy `\s+` leaves has no leading blank |
| ProjectModal.HeadingOf | src/components/projectModal/ProjectModal.tsx:37-43 | one line's table-of-contents item; `HeadingComplete` and `HeadingSound` state exactly which lines give one |
| ProjectModal.HeadingComplete | src/components/projectModal/ProjectModal.tsx:37-43 | every line of 1 to 3 `#`, whitespace and one line of text gives the item with that level, the trimmed text and its slug |
| ProjectModal.HeadingSound | src/components/projectModal/ProjectModal.tsx:37-43 | every item comes from such a line |
| ProjectModal.DeepHeading | src/components/projectModal/ProjectModal.tsx:37 | a line starting with four or more `#` gives no item |
| ProjectModal.CarriageReturnHeading | src/components/projectModal/ProjectModal.tsx:37 | a heading ending in a carriage return, as in a CRLF file, gives no item |
| ProjectModal.ExtractToc | src/components/projectModal/ProjectModal.tsx:33-46 | `extractToc`; `TocFollowsHeadings`, `TocLines` and `TocItemsWellFormed` state its properties |
| ProjectModal.TocFollowsHeadings | src/components/projectModal/ProjectModal.tsx:34-45 | mapping then dropping the non-matches is filtering the heading lines then mapping: one item per heading line, in line order |
| ProjectModal.TocLines | src/components/projectModal/ProjectModal.tsx:33-46 | the TOC is the items of the heading lines of the text, in order |
| ProjectModal.TocItemsWellFormed | src/components/projectModal/ProjectModal.tsx:40-43 | every item has level 1 to 3 and trimmed text, its id is the slug of its text, and the id's characters are in `[a-z0-9_-]` |
| ProjectModal.Gallery | src/components/projectModal/ProjectModal.tsx:62-70 | the qualified gallery; `GalleryEntries`, `GalleryEmpty` and `GalleryIdempotent` state its properties |
| ProjectModal.GalleryEntries | src/components/projectModal/ProjectModal.tsx:62-70 | qualification keeps length, order, type and title; a src starting with `/` is kept, any other goes under `/portfolio-images/<folder>/` |
| ProjectModal.GalleryEmpty | src/components/projectModal/ProjectModal.tsx:62-70 | no project or no media gives an empty gallery |
| ProjectModal.RootedPath | src/components/projectModal/ProjectModal.tsx:68 | a qualified path starts with `/` |
| ProjectModal.GalleryIdempotent | src/components/projectModal/ProjectModal.tsx:62-70 | qualifying the gallery again changes nothing |
| ProjectModal.GalleryUnderCoverFolder | src/components/projectModal/ProjectModal.tsx:68 | for a catalog cover, a relative src goes under that project's own folder |
| ProjectModal.EmptyGalleryStays | src/components/projectModal/ProjectModal.tsx:72-82 | on an empty gallery both updates leave the index unchanged |
| ProjectModal.NextIndex | src/components/projectModal/ProjectModal.tsx:74 | `(i + 1) % n` with JavaScript's remainder; `IndexInRange` and `NextPrevInverse` state its properties |
| ProjectModal.PrevIndex | src/components/projectModal/ProjectModal.tsx:80 | `(i - 1 + n) % n` with JavaScript's remainder; `IndexInRange` and `NextPrevInverse` state its properties |
| ProjectModal.IndexSteps | src/components/projectModal/ProjectModal.tsx:72-82 | inside the gallery the index moves one place forward or back, wrapping at the ends |
| ProjectModal.IndexInRange | src/components/projectModal/ProjectModal.tsx:72-82 | an index in `[0, n)` stays in `[0, n)` |
| ProjectModal.NextPrevInverse | src/components/projectModal/ProjectModal.tsx:74-80 | forward then back, or back then forward, restores the index |
| ProjectModal.NextTimesAdvance | src/components/projectModal/ProjectModal.tsx:74 | k forward presses move the index to `(i + k) mod n` |
| ProjectModal.FullTurn | src/components/projectModal/ProjectModal.tsx:74 | n forward presses return to the starting index |
| ProjectModal.ModUnique | src/components/projectModal/ProjectModal.tsx:74 | a remainder in `[0, n)` of a division is the division's remainder |
| ProjectModal.ModSucc | src/components/projectModal/ProjectModal.tsx:74 | the remainder of a successor is the wrapped successor of the remainder |
| ProjectModal.ExtraMetadata | src/components/projectModal/ProjectModal.tsx:83-85 | the entries not reserved, in order; `ExtraMetadataExactly` states which |
| ProjectModal.ExtraMetadataExactly | src/components/projectModal/ProjectModal.tsx:83-85 | extra metadata is exactly the entries whose key is not reserved, in their original order |
| ProjectModal.ExtraMetadataOmitsFixedFields | src/components/projectModal/ProjectModal.tsx:83-85 | no title, category, date, location, description or layout entry comes back |
| ProjectModal.ExtraMetadataKeepsUnreserved | src/components/projectModal/ProjectModal.tsx:83-85 | entries without reserved keys are shown whole |
| ProjectModal.ModalState.constructor | src/components/projectModal/ProjectModal.tsx:52-55 | the index starts at 0 with the details folded |
| ProjectModal.ModalState.NextImage | src/components/projectModal/ProjectModal.tsx:72-76 | the index takes the forward update and stays in the gallery; the details toggle is unchanged |
| ProjectModal.ModalState.PrevImage | src/components/projectModal/ProjectModal.tsx:78-82 | the index takes the backward update and stays in the gallery; the details toggle is unchanged |
| ProjectModal.ModalState.OnOpen | src/components/projectModal/ProjectModal.tsx:89-102 | opening with a project resets the index to 0 and folds the details; otherwise nothing changes |
| ProjectModal.ModalState.OnKey | src/components/projectModal/ProjectModal.tsx:104-115 | while open, ArrowRight and ArrowLeft move the index and Escape asks to close; while closed nothing happens |
| LegacyModal.FailedLoadShowsCover | src/components/ProjectModal.tsx:264-273 | a failed load shows exactly one image, the cover, and qualification keeps its absolute path |
| LegacyModal.CoverIsAbsolute | scripts/generate-projects.js:105-107 | every cover the catalog builder writes starts with `/` |
| LegacyModal.LoadReadsLikeIndexer | src/components/ProjectModal.tsx:268-269 | a successful load takes `data.media`, or `[]` when it is absent, as the indexer reads a previous manifest |
| LegacyModal.GalleryRequest | src/components/ProjectModal.tsx:257-258 | the effect starts a load exactly when the modal is open with a project, and for that project |
| LegacyModal.GalleryAfterLoad | src/components/ProjectModal.tsx:264-273 | the media a load settles with: `data.media`, or `[]`, after a fetch, the cover alone after a failure; `FailedLoadShowsCover` and `LoadReadsLikeIndexer` state its two cases |
| LegacyModal.IndexedGalleryShown | src/components/ProjectModal.tsx:122-130 | for a catalog project, the modal shows each entry the indexer wrote for its folder, in order, under `/portfolio-images/<folder>/`, with its type |
| LegacyModal.LegacyModalState.constructor | src/components/ProjectModal.tsx:69-87 | index 0, details folded, no media, zoom 1, offset 0, no pending frame |
| LegacyModal.LegacyModalState.ResetView | src/components/ProjectModal.tsx:105-115 | a pending inertia frame is cancelled; zoom becomes 1 and x, y become 0; nothing else changes |
| LegacyModal.LegacyModalState.NextImage | src/components/ProjectModal.tsx:132-136 | on a non-empty gallery the index moves forward and the view is reset; on an empty one nothing changes |
| LegacyModal.LegacyModalState.PrevImage | src/components/ProjectModal.tsx:138-142 | on a non-empty gallery the index moves back and the view is reset; on an empty one nothing changes |
| LegacyModal.LegacyModalState.OnOpen | src/components/ProjectModal.tsx:149-162 | opening with a project gives index 0, details folded and the view reset; otherwise nothing changes |
| LegacyModal.LegacyModalState.OnGalleryLoaded | src/components/ProjectModal.tsx:260-273 | a settling load sets the media to the loaded gallery or the cover fallback of the project it was started for, whatever the modal shows now; the rest of the state is unchanged |
| LegacyModal.LegacyModalState.ToggleDetails | src/components/ProjectModal.tsx:544 | the details toggle flips and nothing else changes |
| LegacyModal.LegacyModalState.OnDoubleClick | src/components/ProjectModal.tsx:635-638 | a double click resets the view and changes nothing else |
| PortfolioGrid.Grid.constructor | src/components/PortfolioGrid.tsx:30 | the initial filter is `archviz` |
| PortfolioGrid.Grid.SetFilter | src/components/PortfolioGrid.tsx:63 | a filter button selects its filter |
| PortfolioGrid.AllUnchanged | src/components/PortfolioGrid.tsx:33 | `all` returns the project list unchanged |
| PortfolioGrid.FilteredProjects | src/components/PortfolioGrid.tsx:32-49 | the shown list for a filter; the lemmas below state each filter's result |
| PortfolioGrid.ArchvizExactly | src/components/PortfolioGrid.tsx:35-37 | `archviz` keeps exactly the projects whose lower-cased category contains `arch` |
| PortfolioGrid.TechnicalExactly | src/components/PortfolioGrid.tsx:39-46 | `technical` keeps exactly those whose lower-cased category contains `tech`, `procedural` or `geometry` |
| PortfolioGrid.FilteredIsSubsequence | src/components/PortfolioGrid.tsx:32-49 | every filtered list is an order-preserving subsequence of the input |
| PortfolioGrid.FilterIdempotent | src/components/PortfolioGrid.tsx:32-49 | filtering the shown list again with the same filter changes nothing |
| PortfolioGrid.CategoryCaseIgnored | src/components/PortfolioGrid.tsx:36-44 | a category is classified as its lower-cased form is |

## Left out

- File-system access, process exit and console output. Directory listings and file contents are inputs, written files are outputs, and a missing root is an error result.
- JSON text. `JSON.parse` and `JSON.stringify` are replaced by structured values; a parse failure is `None`.
- NaturalSort.NaturalLe: models `localeCompare` with numeric collation and base sensitivity over ASCII only. Digit runs compare by value, letters ignore case, and punctuation sorts before digits and letters. Locale tables and non-ASCII collation are not modelled. Punctuation is ordered by character code, while ICU's root collation orders `_` before `-` before `.`: for `img.jpg` and `img_2.jpg` the model puts `img.jpg` first (`.` is U+002E, `_` is U+005F) where ICU puts `img_2.jpg` first.
- Projects.GenerateProjects: models the catalog sort with `NewerFirst`, which reads a list date as no date. The source's comparator throws when it is called with such an entry as `b`, the receiver (`CompareAsWritten` is None), and the source then writes no catalog; with a single described folder, or when V8's sort never makes that entry the receiver, the catalog is written with `"date": []`. That exception and which calls V8's sort makes are not modelled beyond the failing comparison. A description.md that exists but cannot be read (a directory of that name, a permission error) makes `readFileSync` throw and the run abort with no catalog; the model reads such a folder's description as present or missing and does not model the abort.
- Projects.NewerFirst: the date comparison `localeCompare` is modelled as code-point order, which agrees with UTF-16 code-unit order on the Basic Multilingual Plane, not as locale collation; an astral character against one in U+E000-U+FFFF is ordered the other way round from code units.
- Text.ToLower: `toLowerCase` is modelled on the ASCII letters only.
- Galleries.Extname: `path.extname` is modelled on bare file names. Directory separators in a name are not modelled.
- The sorts of both scripts are modelled on sequences as a stable insertion sort, not in place. The order of equal elements follows the stable `Array.prototype.sort`.
- Frontmatter.ParseFrontmatter: `data` is a map, so key insertion order and special keys such as `__proto__` are not modelled.
- ProjectModal.ExtraMetadata: works on the entry list the front matter gives. The order `Object.entries` lists keys in is taken as given.
- Galleries.FirstWithSrc: a previous manifest entry is modelled with a string `src`. Entries whose `src` is missing or not a string are not modelled, nor is a `null` manifest value other than a missing key. An entry's `title` is modelled as a string or absent: a non-string title (such as `5`) passes `?? ""`, and the later `m.title.trim()` in the missing-title filter then throws, which is not modelled.
- LegacyModal.GalleryAfterLoad: a fetched gallery whose `data` is `null` throws in the source and also reaches the fallback. The model represents that case as a failed load (`None`).
- LegacyModal.LegacyModalState.OnGalleryLoaded: the model does not fix the order in which loads settle. Starting a load (`GalleryRequest`) and its settling are separate steps, and any load that settles writes its media, even after the modal closed or the project changed; the fetch itself and its timing are not modelled.
- Neither modal calls its own `extractToc`. Both build the table of contents from the rendered page, the current one through `hooks/useToc.ts`. The function is modelled as written, and the DOM-based table of contents is not part of this model.
- The pan, zoom and inertia viewer: the wheel and drag handlers of the older modal, `viewer/ImageViewer.tsx` and `hooks/useImageViewer.ts`. These are floating point, animation frames and springs. The older modal's view state is kept only as the values `resetView` sets. `MotionValue.stop()` and the inertia step function are not modelled.
- ProjectModal.ModalState.NextImage, ProjectModal.ModalState.PrevImage and ProjectModal.ModalState.OnOpen: `viewer.resetView()` in the current modal belongs to `hooks/useImageViewer.ts`, which is not part of this model. Only the index and details updates are stated. The open effect also sets `document.body.style.overflow` to `hidden` while open with a project and to `unset` otherwise and on cleanup; that page style is not modelled.
- The fetch wrappers `hooks/useProjectContent.ts` and `hooks/useProjectGallery.ts` are not part of this model. They rely on a third-party front-matter parser, so the current modal's media and front matter are inputs.
- Presentation: the JSX of both modals, the grid's masonry layout and every other page component.
- PortfolioGrid.FilteredProjects: the final `return projects` is unreachable for the three filter values and is not modelled. Categories are strings, as the `Project` type declares; a list category from the catalog is not modelled.
- Keyboard listener registration and removal are not modelled. `OnKey` is the handler while the modal is open.

## Findings

| source | as written | input that shows it | evidently intended | confidence | as-written member | corrected member |
|---|---|---|---|---|---|---|
| scripts/generate-projects.js:120 | the comparator calls `(b.date \|\| "").localeCompare(...)` (`CompareAsWritten`). A `date:` header with no value stores `[]`, which is truthy, so the receiver is an array with no `localeCompare` | two described folders, the first with the header line `date:` (e.g. `---\ndate:\n---`) and the second with any date. The sort then throws and no catalog is written | a list date sorts as no date, after every dated entry | not executed | Projects.EmptyDateHeader | Projects.CatalogOrdered |
