/**
 * The catalog builder: one catalog entry per project folder that has a description.md, read
 * from its front matter with defaults, a cover image taken from its gallery.json, and the
 * whole catalog sorted by date, newest first.
 */
module Projects {
  import opened Wrappers
  import opened Text
  import Seqs
  import opened Frontmatter
  import Galleries

  /** One entry of the content root: description.md when present, gallery.json when readable. */
  datatype ProjectFolder = ProjectFolder(
    name: string,
    isDirectory: bool,
    description: Option<string>,
    gallery: Option<Galleries.GalleryJson>)

  /** One catalog entry `{id, title, category, date, location, image}`. */
  datatype Entry = Entry(id: string, title: FmValue, category: FmValue, date: FmValue, location: FmValue, image: string)

  const ImageRoot: string := "/portfolio-images/"
  const FallbackCover: string := "MainRoom.JPG.jpg"

  /** `media.find((m) => m.type === "image")`: the first image entry, if any. */
  function FirstImage(media: seq<Galleries.MediaItem>): (r: Option<Galleries.MediaItem>)
    ensures r.Some? ==> r.value in media && r.value.kind == "image"
    ensures r.None? <==> forall m :: m in media ==> m.kind != "image"
  {
    if media == [] then None
    else if media[0].kind == "image" then Some(media[0])
    else FirstImage(media[1..])
  }

  /**
   * The preview image: the first image's `src` under the folder, or the fixed fallback name
   * when there is no image or its `src` is empty.
   */
  function CoverImage(folder: string, media: seq<Galleries.MediaItem>): string {
    var first := FirstImage(media);
    if first.Some? && first.value.src != "" then ImageRoot + folder + "/" + first.value.src
    else ImageRoot + folder + "/" + FallbackCover
  }

  /** `data[key] ?? default`: the parser never stores null, so only a missing key falls back. */
  function Field(data: map<string, FmValue>, key: string, default: FmValue): FmValue {
    if key in data then data[key] else default
  }

  /** The entry pushed for `folder`, from its front-matter data and its gallery. */
  function EntryFor(folder: string, data: map<string, FmValue>, gallery: Option<Galleries.GalleryJson>): Entry {
    Entry(
      folder,
      Field(data, "title", Scalar(folder)),
      Field(data, "category", Scalar("Uncategorised")),
      Field(data, "date", Scalar("")),
      Field(data, "location", Scalar("")),
      CoverImage(folder, Galleries.PriorMedia(gallery)))
  }

  predicate HasDescription(f: ProjectFolder) {
    f.description.Some?
  }

  predicate IsDirectory(f: ProjectFolder) {
    f.isDirectory
  }

  function EntryOf(f: ProjectFolder): Entry
    requires HasDescription(f)
  {
    EntryFor(f.name, ParseSpec(f.description.value).data, f.gallery)
  }

  /** The entries collected by the loop over `folders`, a folder without a description skipped. */
  function Collected(folders: seq<ProjectFolder>): seq<Entry> {
    if folders == [] then []
    else
      var last := folders[|folders| - 1];
      Collected(folders[..|folders| - 1]) + (if HasDescription(last) then [EntryOf(last)] else [])
  }

  /**
   * The sort key. The source sorts on `date || ""`; a date that is a list (an empty `date:`
   * header makes one) is taken as no date here, see `CompareAsWritten` for what the source does.
   */
  function DateKey(date: FmValue): string {
    match date
    case Scalar(s) => s
    case List(_) => ""
  }

  /** `a` may stay before `b`: the comparator `b.date.localeCompare(a.date)` is not positive. */
  predicate NewerFirst(a: Entry, b: Entry) {
    CodeUnitLe(DateKey(b.date), DateKey(a.date))
  }

  /** The catalog written to projects.json, or the fatal error for a missing root. */
  function CatalogSpec(root: Option<seq<ProjectFolder>>): Result<seq<Entry>, Galleries.Fatal> {
    match root
    case None => Err(Galleries.RootMissing)
    case Some(entries) => Ok(Seqs.SortBy(NewerFirst, Collected(Seqs.Filter(IsDirectory, entries))))
  }

  /** The entry for one folder with a description: its front matter parsed, its gallery read. */
  method ReadEntry(f: ProjectFolder) returns (e: Entry)
    requires HasDescription(f)
    ensures e == EntryOf(f)
  {
    var data, _ := ParseFrontmatter(f.description.value);
    e := EntryFor(f.name, data, f.gallery);
  }

  /** `generateProjects`. */
  method GenerateProjects(root: Option<seq<ProjectFolder>>) returns (r: Result<seq<Entry>, Galleries.Fatal>)
    ensures r == CatalogSpec(root)
  {
    if root.None? {
      return Err(Galleries.RootMissing);
    }
    var folders := Seqs.Filter(IsDirectory, root.value);
    var projects: seq<Entry> := [];
    var i := 0;
    while i < |folders|
      invariant 0 <= i <= |folders|
      invariant projects == Collected(folders[..i])
    {
      assert folders[..i + 1][..i] == folders[..i];
      if HasDescription(folders[i]) {
        var e := ReadEntry(folders[i]);
        projects := projects + [e];
      }
      i := i + 1;
    }
    assert folders[..i] == folders;
    return Ok(Seqs.SortBy(NewerFirst, projects));
  }

  /**
   * The loop collects exactly one entry per folder with a description, in folder order, each
   * read from that folder; folders without one contribute nothing.
   */
  lemma {:induction false} CollectedEntries(folders: seq<ProjectFolder>)
    ensures var described := Seqs.Filter(HasDescription, folders);
      |Collected(folders)| == |described|
      && forall i :: 0 <= i < |described| ==> Collected(folders)[i] == EntryOf(described[i])
  {
    if folders != [] {
      var n := |folders|;
      var last := folders[n - 1];
      var init := folders[..n - 1];
      CollectedEntries(init);
      var d := Seqs.Filter(HasDescription, init);
      var described := Seqs.Filter(HasDescription, folders);
      assert described == d + Seqs.Filter(HasDescription, [last]) by {
        assert folders == init + [last];
        Seqs.FilterAppend(HasDescription, init, [last]);
      }
      assert Seqs.Filter(HasDescription, [last]) == (if HasDescription(last) then [last] else []) by {
        assert [last][1..] == [];
      }
      var c := Collected(init);
      assert Collected(folders) == c + (if HasDescription(last) then [EntryOf(last)] else []);
      forall i | 0 <= i < |described| ensures Collected(folders)[i] == EntryOf(described[i]) {
        if i < |d| {
          assert Collected(folders)[i] == c[i] && described[i] == d[i];
        }
      }
    }
  }

  /** Every entry's `id` is the name of its folder, and the ids follow the described folders. */
  lemma EntryIds(folders: seq<ProjectFolder>)
    ensures var described := Seqs.Filter(HasDescription, folders);
      |Collected(folders)| == |described|
      && forall i :: 0 <= i < |described| ==> Collected(folders)[i].id == described[i].name
  {
    CollectedEntries(folders);
  }

  lemma NewerFirstIsTotalPreorder()
    ensures Seqs.Total(NewerFirst) && Seqs.Transitive(NewerFirst)
  {
    forall a, b ensures NewerFirst(a, b) || NewerFirst(b, a) {
      CodeUnitLeTotal(DateKey(a.date), DateKey(b.date));
    }
    forall a, b, c | NewerFirst(a, b) && NewerFirst(b, c) ensures NewerFirst(a, c) {
      CodeUnitLeTransitive(DateKey(c.date), DateKey(b.date), DateKey(a.date));
    }
  }

  /** Nothing sorts below the empty date. */
  lemma EmptyDateLeast(s: string)
    requires CodeUnitLe(s, "")
    ensures s == ""
  {
  }

  /**
   * The catalog holds exactly the collected entries, dates never increase along it, and
   * entries without a date come after every dated one.
   */
  lemma CatalogOrdered(root: Option<seq<ProjectFolder>>)
    requires root.Some?
    ensures var r := CatalogSpec(root);
      var collected := Collected(Seqs.Filter(IsDirectory, root.value));
      && r.Ok?
      && multiset(r.value) == multiset(collected)
      && (forall i, j :: 0 <= i < j < |r.value| ==> CodeUnitLe(DateKey(r.value[j].date), DateKey(r.value[i].date)))
      && (forall i, j :: 0 <= i < j < |r.value| && DateKey(r.value[i].date) == "" ==> DateKey(r.value[j].date) == "")
  {
    var collected := Collected(Seqs.Filter(IsDirectory, root.value));
    var r := Seqs.SortBy(NewerFirst, collected);
    NewerFirstIsTotalPreorder();
    Seqs.SortBySorted(NewerFirst, collected);
    forall i, j | 0 <= i < j < |r| && DateKey(r[i].date) == "" ensures DateKey(r[j].date) == "" {
      assert NewerFirst(r[i], r[j]);
      EmptyDateLeast(DateKey(r[j].date));
    }
  }

  /** A folder whose description has no front matter gets every default. */
  lemma PlainDescriptionDefaults(folder: string, md: string, gallery: Option<Galleries.GalleryJson>)
    requires !StartsWith(Normalize(md), "---")
    ensures EntryFor(folder, ParseSpec(md).data, gallery)
         == Entry(folder, Scalar(folder), Scalar("Uncategorised"), Scalar(""), Scalar(""), CoverImage(folder, Galleries.PriorMedia(gallery)))
  {
    NoOpeningDelimiter(md);
  }

  /** Keys the front matter does set are taken over unchanged. */
  lemma DeclaredFieldsKept(folder: string, data: map<string, FmValue>, gallery: Option<Galleries.GalleryJson>)
    ensures var e := EntryFor(folder, data, gallery);
      && ("title" in data ==> e.title == data["title"])
      && ("category" in data ==> e.category == data["category"])
      && ("date" in data ==> e.date == data["date"])
      && ("location" in data ==> e.location == data["location"])
  {
  }

  /** With an image first among the image entries and a non-empty `src`, that image is the cover. */
  lemma CoverIsFirstImage(folder: string, media: seq<Galleries.MediaItem>, k: nat)
    requires k < |media| && media[k].kind == "image" && media[k].src != ""
    requires forall j :: 0 <= j < k ==> media[j].kind != "image"
    ensures CoverImage(folder, media) == ImageRoot + folder + "/" + media[k].src
  {
    FirstImageAt(media, k);
  }

  lemma {:induction false} FirstImageAt(media: seq<Galleries.MediaItem>, k: nat)
    requires k < |media| && media[k].kind == "image"
    requires forall j :: 0 <= j < k ==> media[j].kind != "image"
    ensures FirstImage(media) == Some(media[k])
  {
    if k > 0 {
      FirstImageAt(media[1..], k - 1);
    }
  }

  /** Without an image entry, or when the first one has an empty `src`, the fixed file name is used. */
  lemma CoverFallback(folder: string, media: seq<Galleries.MediaItem>)
    requires (forall m :: m in media ==> m.kind != "image") || FirstImage(media).value.src == ""
    ensures CoverImage(folder, media) == ImageRoot + folder + "/" + FallbackCover
  {
  }

  /** A missing, unreadable or corrupt gallery.json gives the fallback cover. */
  lemma UnreadableGalleryFallback(folder: string)
    ensures CoverImage(folder, Galleries.PriorMedia(None)) == ImageRoot + folder + "/" + FallbackCover
    ensures CoverImage(folder, Galleries.PriorMedia(Some(Galleries.GalleryJson(None)))) == ImageRoot + folder + "/" + FallbackCover
  {
  }

  /**
   * `(x.date || "")` as the receiver of `localeCompare` in the source's comparator: a string
   * (the empty one included, as `"" || ""` is `""`), or nothing for a list, which has no
   * `localeCompare` method, so that the comparison throws.
   */
  function DateOperand(date: FmValue): Option<string> {
    match date
    case Scalar(s) => Some(s)
    case List(_) => None
  }

  /** `String(x.date || "")`, the argument `localeCompare` compares against: a list reads as its items joined by commas. */
  function DateArgument(date: FmValue): string {
    match date
    case Scalar(s) => s
    case List(items) => if items == [] then "" else Join(items, ',')
  }

  /**
   * The comparator `(a, b) => (b.date || "").localeCompare(a.date || "")` as written, with
   * code-point order for `localeCompare`: None where it throws, else its sign. It throws
   * exactly when `b`'s date is a list, and on two string dates it is not positive exactly
   * when `NewerFirst(a, b)`.
   */
  function CompareAsWritten(a: Entry, b: Entry): (r: Option<int>)
    ensures r.None? <==> b.date.List?
    ensures r.Some? ==> -1 <= r.value <= 1
    ensures a.date.Scalar? && b.date.Scalar? ==> r.Some? && (r.value <= 0 <==> NewerFirst(a, b))
    ensures a.date.Scalar? && b.date.Scalar? ==> r.Some? && (r.value >= 0 <==> NewerFirst(b, a))
  {
    match DateOperand(b.date)
    case None => None
    case Some(receiver) =>
      var arg := DateArgument(a.date);
      CodeUnitLeTotal(receiver, arg);
      Some(if !CodeUnitLe(receiver, arg) then 1 else if CodeUnitLe(arg, receiver) then 0 else -1)
  }

  /**
   * A `date:` header with nothing after it stores an empty list, which the entry carries as
   * its date: the comparator as written throws whenever that entry is the receiver, as it is
   * in V8's first call `cmp(arr[1], arr[0])` with the entry at index 0, while `DateKey` reads
   * it as no date.
   */
  lemma EmptyDateHeader(st: State, folder: string, gallery: Option<Galleries.GalleryJson>)
    ensures var e := EntryFor(folder, Step(st, View("date:")).data, gallery);
      e.date == List([]) && DateKey(e.date) == "" &&
      forall other :: CompareAsWritten(other, e) == None
  {
    assert "date:" == "date" + ":";
    BareKeyLine("date");
    KeyLineSets(st, "date:", "date", "");
  }

  /** Newest first, undated last: 2024, 2023, then the entry without a date. */
  lemma SortExample(a: Entry, b: Entry, c: Entry)
    requires a.date == Scalar("2024-01") && b.date == Scalar("2023-05") && c.date == Scalar("")
    ensures Seqs.SortBy(NewerFirst, [b, c, a]) == [a, b, c]
  {
    assert CodeUnitLe("2023-05", "2024-01") && !CodeUnitLe("2024-01", "2023-05");
    Seqs.SortThree(NewerFirst, a, b, c);
  }
}

