/**
 * The gallery indexer: classifies the files of a project folder by extension, keeps the
 * visible media files in natural order, carries hand-written titles over from the previous
 * gallery.json, and writes the new manifest for every folder.
 */
module Galleries {
  import opened Wrappers
  import opened Text
  import Seqs
  import NaturalSort

  datatype MediaType = Image | Video {
    /** The `type` string written to gallery.json. */
    function Name(): string {
      match this
      case Image => "image"
      case Video => "video"
    }
  }

  /** One entry the indexer writes: `{type, src, title}`. */
  datatype MediaEntry = MediaEntry(kind: MediaType, src: string, title: string)

  /** One entry of a gallery.json as a reader finds it; `title` may be missing. */
  datatype MediaItem = MediaItem(kind: string, src: string, title: Option<string>)

  /** A parsed gallery.json; its `media` key may be missing. */
  datatype GalleryJson = GalleryJson(media: Option<seq<MediaItem>>)

  const ImageExts: seq<string> := [".jpg", ".jpeg", ".png", ".webp", ".gif"]
  const VideoExts: seq<string> := [".mp4", ".webm", ".mov"]

  /** Index of the last '.' in `f`, or -1. */
  function LastDot(f: string): (r: int)
    ensures -1 <= r < |f|
    ensures r >= 0 ==> f[r] == '.' && '.' !in f[r + 1..]
    ensures r == -1 ==> '.' !in f
  {
    if f == [] then -1
    else if f[|f| - 1] == '.' then |f| - 1
    else
      var r := LastDot(f[..|f| - 1]);
      assert f == f[..|f| - 1] + [f[|f| - 1]];
      r
  }

  /** `path.extname` of a bare file name: from its last dot on, unless that dot starts the name. */
  function Extname(f: string): string {
    var i := LastDot(f);
    if i <= 0 || f == ".." then "" else f[i..]
  }

  /** The media type a lower-cased extension stands for. */
  function TypeOfExt(ext: string): Option<MediaType>
  {
    if ext in ImageExts then Some(Image)
    else if ext in VideoExts then Some(Video)
    else None
  }

  /** `getType`: classification by the lower-cased extension. */
  function GetType(file: string): Option<MediaType> {
    TypeOfExt(ToLower(Extname(file)))
  }

  /** A dot with no dot after it is the last dot. */
  lemma {:induction false} LastDotAt(f: string, k: nat)
    requires k < |f| && f[k] == '.' && '.' !in f[k + 1..]
    ensures LastDot(f) == k
  {
    if k < |f| - 1 {
      var g := f[..|f| - 1];
      assert f[|f| - 1] in f[k + 1..];
      assert g[k + 1..] == f[k + 1..|f| - 1];
      LastDotAt(g, k);
    }
  }

  /** A name ending in `ext`, whose only dot is the first character of `ext`, has that extension. */
  lemma ExtnameOfSuffix(stem: string, ext: string)
    requires stem != [] && ext != [] && ext[0] == '.' && '.' !in ext[1..] && '.' !in stem
    ensures Extname(stem + ext) == ext
  {
    var f := stem + ext;
    assert f[|stem|] == '.';
    assert f[|stem| + 1..] == ext[1..];
    LastDotAt(f, |stem|);
    assert f[0] == stem[0] != '.';
    assert f[|stem|..] == ext;
  }

  /** `getType` looks only at the extension and ignores its case. */
  lemma {:induction false} GetTypeBySuffix(stem: string, ext: string)
    requires stem != [] && ext != [] && ext[0] == '.' && '.' !in ext[1..] && '.' !in stem
    ensures GetType(stem + ext) == TypeOfExt(ToLower(ext))
  {
    ExtnameOfSuffix(stem, ext);
  }

  lemma {:induction false} LastDotIgnoresCase(f: string)
    ensures LastDot(ToLower(f)) == LastDot(f)
  {
    if f != [] {
      var l := ToLower(f);
      assert l[..|l| - 1] == ToLower(f[..|f| - 1]);
      LastDotIgnoresCase(f[..|f| - 1]);
    }
  }

  /** The extension of the lower-cased name is the lower-cased extension. */
  lemma ExtnameIgnoresCase(f: string)
    ensures Extname(ToLower(f)) == ToLower(Extname(f))
  {
    var l := ToLower(f);
    LastDotIgnoresCase(f);
    var i := LastDot(f);
    if i > 0 {
      assert (f == "..") == (l == "..") by {
        if |f| == 2 {
          assert l[0] == LowerChar(f[0]) && l[1] == LowerChar(f[1]);
        }
      }
      assert l[i..] == ToLower(f[i..]);
    }
  }

  /** Upper or lower case in a name never changes its classification: `a.JPG` is an image like `a.jpg`. */
  lemma GetTypeIgnoresCase(f: string)
    ensures GetType(ToLower(f)) == GetType(f)
  {
    ExtnameIgnoresCase(f);
    ToLowerIdempotent(Extname(f));
  }

  lemma TypeOfExtExamples()
    ensures TypeOfExt(".jpg") == Some(Image)
    ensures TypeOfExt(".webm") == Some(Video)
    ensures TypeOfExt(".txt") == None
  {
    assert ImageExts[0] == ".jpg";
    assert VideoExts[1] == ".webm";
    assert ".webm"[1] != ".jpeg"[1] && ".webm"[4] != ".webp"[4];
  }

  lemma TypeExampleImage()
    ensures GetType("a.JPG") == Some(Image)
  {
    var f := "a.JPG";
    assert f[2..] == "JPG";
    LastDotAt(f, 1);
    assert Extname(f) == ".JPG" by {
      assert f[1..] == ".JPG";
    }
    assert ToLower(".JPG") == ".jpg" by {
      assert ToLower("G") == "g";
      assert ToLower("PG") == "p" + ToLower("G");
      assert ToLower("JPG") == "j" + ToLower("PG");
      assert ToLower(".JPG") == "." + ToLower("JPG");
    }
    TypeOfExtExamples();
  }

  lemma TypeExampleVideo()
    ensures GetType("d.webm") == Some(Video)
  {
    var f := "d.webm";
    assert f[2..] == "webm";
    LastDotAt(f, 1);
    assert Extname(f) == ".webm" by {
      assert f[1..] == ".webm";
    }
    LowerNoUpper(".webm");
    TypeOfExtExamples();
  }

  lemma TypeExampleOther()
    ensures GetType("c.txt") == None
  {
    var f := "c.txt";
    assert f[2..] == "txt";
    LastDotAt(f, 1);
    assert Extname(f) == ".txt" by {
      assert f[1..] == ".txt";
    }
    LowerNoUpper(".txt");
    TypeOfExtExamples();
  }

  lemma LowerNoUpper(s: string)
    requires forall i :: 0 <= i < |s| ==> !('A' <= s[i] <= 'Z')
    ensures ToLower(s) == s
  {
  }

  /** The listing filters: no dotfiles, not the manifest itself, not the description. */
  predicate Listed(f: string) {
    !StartsWith(f, ".") && f != "gallery.json" && f != "description.md"
  }

  predicate HasMediaType(f: string) {
    GetType(f).Some?
  }

  /** `existingGallery?.media ?? []`: a missing or unreadable manifest has no entries. */
  function PriorMedia(existing: Option<GalleryJson>): seq<MediaItem> {
    match existing
    case None => []
    case Some(g) => g.media.GetOr([])
  }

  /** `existingMedia.find((m) => m.src === file)`, as an index: the first match, or -1. */
  function FirstWithSrc(prior: seq<MediaItem>, file: string): (i: int)
    ensures -1 <= i < |prior|
    ensures i >= 0 ==> prior[i].src == file
    ensures forall j :: 0 <= j < |prior| && (i == -1 || j < i) ==> prior[j].src != file
  {
    if prior == [] then -1
    else if prior[0].src == file then 0
    else
      var i := FirstWithSrc(prior[1..], file);
      if i == -1 then -1 else i + 1
  }

  /** `existing?.title ?? ""`. */
  function PriorTitle(prior: seq<MediaItem>, file: string): string {
    var i := FirstWithSrc(prior, file);
    if i == -1 then "" else prior[i].title.GetOr("")
  }

  function Srcs(media: seq<MediaEntry>): (r: seq<string>)
    ensures |r| == |media|
    ensures forall i :: 0 <= i < |media| ==> r[i] == media[i].src
  {
    if media == [] then [] else [media[0].src] + Srcs(media[1..])
  }

  /**
   * The `map` step followed by `filter(Boolean)`: one entry per file that has a media type,
   * in the order of `files`, typed by `getType` and titled from the previous manifest.
   */
  function BuildEntries(files: seq<string>, prior: seq<MediaItem>): seq<MediaEntry>
  {
    if files == [] then []
    else
      var rest := BuildEntries(files[1..], prior);
      match GetType(files[0])
      case None => rest
      case Some(t) =>
        [MediaEntry(t, files[0], PriorTitle(prior, files[0]))] + rest
  }

  /**
   * The entries are for exactly the files that have a media type, in the order given, each
   * typed by `getType` and titled from the previous manifest.
   */
  lemma {:induction false} BuildEntriesSrcs(files: seq<string>, prior: seq<MediaItem>)
    ensures Srcs(BuildEntries(files, prior)) == Seqs.Filter(HasMediaType, files)
    ensures var r := BuildEntries(files, prior);
      forall i :: 0 <= i < |r| ==> GetType(r[i].src) == Some(r[i].kind) && r[i].title == PriorTitle(prior, r[i].src)
  {
    if files != [] {
      BuildEntriesSrcs(files[1..], prior);
      var rest := BuildEntries(files[1..], prior);
      if HasMediaType(files[0]) {
        var r := BuildEntries(files, prior);
        assert r[1..] == rest;
        assert Srcs(r) == [files[0]] + Srcs(rest);
      }
    }
  }

  /** The files `generateGallery` visits, in the order it visits them. */
  function SortedListing(files: seq<string>): seq<string> {
    Seqs.SortBy(NaturalSort.NaturalLe, Seqs.Filter(Listed, files))
  }

  /** The `media` list `generateGallery` writes for a folder listing and its previous manifest. */
  function GenerateGallery(files: seq<string>, existing: Option<GalleryJson>): seq<MediaEntry> {
    BuildEntries(SortedListing(files), PriorMedia(existing))
  }

  /** An entry as it is read back after being written. */
  function Stored(e: MediaEntry): MediaItem {
    MediaItem(e.kind.Name(), e.src, Some(e.title))
  }

  /**
   * The manifest `{ media }` as it is read back after being written: reading its media
   * gives one item per entry, in order, with the entry's type name, `src` and title.
   */
  function Written(media: seq<MediaEntry>): (g: GalleryJson)
    ensures g.media.Some?
    ensures var back := PriorMedia(Some(g));
      |back| == |media| &&
      forall i :: 0 <= i < |media| ==>
        back[i].kind == media[i].kind.Name() && back[i].src == media[i].src && back[i].title == Some(media[i].title)
  {
    GalleryJson(Some(seq(|media|, i requires 0 <= i < |media| => Stored(media[i]))))
  }

  /**
   * What is written for a folder: exactly its listed files that have a media type, no
   * dotfile, manifest or description among them, each typed by `getType`, titled from the
   * first previous entry with the same `src`, and no longer than the listing.
   */
  lemma GeneratedEntries(files: seq<string>, existing: Option<GalleryJson>)
    ensures var r := GenerateGallery(files, existing);
      && |r| <= |files|
      && (forall f :: f in Srcs(r) <==> f in files && Listed(f) && HasMediaType(f))
      && (forall i :: 0 <= i < |r| ==> GetType(r[i].src) == Some(r[i].kind) && Listed(r[i].src))
      && (forall i :: 0 <= i < |r| ==> r[i].title == PriorTitle(PriorMedia(existing), r[i].src))
  {
    var listed := Seqs.Filter(Listed, files);
    var sorted := SortedListing(files);
    var r := GenerateGallery(files, existing);
    BuildEntriesSrcs(sorted, PriorMedia(existing));
    assert |Srcs(r)| <= |sorted| == |listed|;
    forall f ensures f in sorted <==> f in listed {
      assert f in sorted <==> f in multiset(sorted);
    }
    forall i | 0 <= i < |r| ensures Listed(r[i].src) {
      assert Srcs(r)[i] in Srcs(r);
    }
  }

  /** The entries come out in natural order of their file names. */
  lemma GeneratedInNaturalOrder(files: seq<string>, existing: Option<GalleryJson>)
    ensures var r := GenerateGallery(files, existing);
      forall i, j :: 0 <= i < j < |r| ==> NaturalSort.NaturalLe(r[i].src, r[j].src)
  {
    var r := GenerateGallery(files, existing);
    NaturalSort.NaturalLeIsTotalPreorder();
    Seqs.SortBySorted(NaturalSort.NaturalLe, Seqs.Filter(Listed, files));
    Seqs.FilterKeepsSorted(NaturalSort.NaturalLe, HasMediaType, SortedListing(files));
    BuildEntriesSrcs(SortedListing(files), PriorMedia(existing));
    assert forall i :: 0 <= i < |r| ==> Srcs(r)[i] == r[i].src;
  }

  /** No two entries share a file when the listing has no repeated name, as a directory's never does. */
  lemma GeneratedSrcsDistinct(files: seq<string>, existing: Option<GalleryJson>)
    requires Seqs.Distinct(files)
    ensures Seqs.Distinct(Srcs(GenerateGallery(files, existing)))
  {
    Seqs.FilterKeepsDistinct(Listed, files);
    Seqs.SortByKeepsDistinct(NaturalSort.NaturalLe, Seqs.Filter(Listed, files));
    Seqs.FilterKeepsDistinct(HasMediaType, SortedListing(files));
    BuildEntriesSrcs(SortedListing(files), PriorMedia(existing));
  }

  /** A missing manifest, an unreadable one and one without `media` all behave like `{media: []}`. */
  lemma MissingManifestIsEmpty(files: seq<string>)
    ensures GenerateGallery(files, None) == GenerateGallery(files, Some(GalleryJson(Some([]))))
    ensures GenerateGallery(files, Some(GalleryJson(None))) == GenerateGallery(files, None)
  {
  }

  /** Entries titled alike for every media file give the same output. */
  lemma {:induction false} BuildEntriesSameTitles(files: seq<string>, p: seq<MediaItem>, q: seq<MediaItem>)
    requires forall f :: f in files && HasMediaType(f) ==> PriorTitle(p, f) == PriorTitle(q, f)
    ensures BuildEntries(files, p) == BuildEntries(files, q)
  {
    if files != [] {
      BuildEntriesSameTitles(files[1..], p, q);
    }
  }

  /** Reading back what was written gives every written file its written title. */
  lemma TitleReadBack(media: seq<MediaEntry>, f: string)
    requires f in Srcs(media)
    requires forall i, j :: 0 <= i < |media| && 0 <= j < |media| && media[i].src == media[j].src ==> media[i].title == media[j].title
    ensures PriorTitle(Written(media).media.value, f) == media[FirstWithSrc(Written(media).media.value, f)].title
    ensures exists k :: 0 <= k < |media| && media[k].src == f && PriorTitle(Written(media).media.value, f) == media[k].title
  {
    var w := Written(media).media.value;
    var k :| 0 <= k < |media| && Srcs(media)[k] == f;
    assert w[k].src == f;
    var i := FirstWithSrc(w, f);
    assert i != -1;
  }

  /**
   * Regeneration is idempotent: feeding the written manifest back in, with the same
   * listing, reproduces the same media list, titles included.
   */
  lemma Idempotent(files: seq<string>, existing: Option<GalleryJson>)
    ensures var r := GenerateGallery(files, existing);
      GenerateGallery(files, Some(Written(r))) == r
  {
    var sorted := SortedListing(files);
    var prior := PriorMedia(existing);
    var r := BuildEntries(sorted, prior);
    var w := Written(r).media.value;
    BuildEntriesSrcs(sorted, prior);
    forall f | f in sorted && HasMediaType(f) ensures PriorTitle(w, f) == PriorTitle(prior, f) {
      assert f in Srcs(r);
      TitleReadBack(r, f);
    }
    BuildEntriesSameTitles(sorted, w, prior);
  }

  /** `missingTitles`: the image entries whose title is empty or whitespace only. */
  function MissingTitles(media: seq<MediaEntry>): (r: seq<MediaEntry>)
    ensures forall e :: e in r <==> e in media && e.kind == Image && AllSpace(e.title)
    ensures Seqs.IsSubsequence(r, media)
  {
    var r := Seqs.Filter((m: MediaEntry) => m.kind == Image && Trim(m.title) == "", media);
    forall e: MediaEntry ensures Trim(e.title) == "" <==> AllSpace(e.title) {
      TrimEmptyIffAllSpace(e.title);
    }
    r
  }

  /** One entry of the content root as the indexer sees it. */
  datatype Folder = Folder(name: string, isDirectory: bool, files: seq<string>, existing: Option<GalleryJson>)

  datatype Fatal = RootMissing

  predicate IsDirectory(d: Folder) {
    d.isDirectory
  }

  /** The folder name and the manifest written into it. */
  function ManifestOf(d: Folder): (string, GalleryJson) {
    (d.name, Written(GenerateGallery(d.files, d.existing)))
  }

  /** The manifests `main` writes, folder by folder, or the fatal error for a missing root. */
  function GenerateAllSpec(root: Option<seq<Folder>>): Result<seq<(string, GalleryJson)>, Fatal> {
    match root
    case None => Err(RootMissing)
    case Some(entries) => Ok(WrittenFor(Seqs.Filter(IsDirectory, entries)))
  }

  function WrittenFor(dirs: seq<Folder>): (r: seq<(string, GalleryJson)>)
    ensures |r| == |dirs|
  {
    Seqs.Map(ManifestOf, dirs)
  }

  /** `main`: one manifest per directory of the content root, written in listing order. */
  method GenerateAll(root: Option<seq<Folder>>) returns (r: Result<seq<(string, GalleryJson)>, Fatal>)
    ensures r == GenerateAllSpec(root)
  {
    if root.None? {
      return Err(RootMissing);
    }
    var written := Seqs.ForEach(ManifestOf, Seqs.Filter(IsDirectory, root.value));
    return Ok(written);
  }

  /** A second run over an unchanged tree, reading the first run's manifests, writes the same manifests. */
  lemma {:induction false} RerunWritesSame(dirs: seq<Folder>)
    ensures var once := WrittenFor(dirs);
      WrittenFor(seq(|dirs|, i requires 0 <= i < |dirs| => dirs[i].(existing := Some(once[i].1)))) == once
  {
    var once := WrittenFor(dirs);
    var again := seq(|dirs|, i requires 0 <= i < |dirs| => dirs[i].(existing := Some(once[i].1)));
    forall k | 0 <= k < |dirs| ensures WrittenFor(again)[k] == once[k] {
      Idempotent(dirs[k].files, dirs[k].existing);
    }
  }
}
