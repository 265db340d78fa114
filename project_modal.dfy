/**
 * The project modal's own logic: the table of contents taken from the description's headings,
 * the gallery with its paths made absolute, the metadata shown besides the fixed fields, and
 * the index of the image on show, which the arrow buttons and keys move round the gallery.
 */
module ProjectModal {
  import opened Wrappers
  import opened Text
  import Seqs
  import Galleries
  import Projects
  import opened ModalUtils
  import PortfolioGrid

  /* ---------------- extractToc ---------------- */

  datatype TocItem = TocItem(id: string, text: string, level: nat)

  /** Number of `#` at the start of `line`. */
  function HashRun(line: string): (n: nat)
    ensures n <= |line|
    ensures forall i :: 0 <= i < n ==> line[i] == '#'
    ensures n == |line| || line[n] != '#'
  {
    if line != [] && line[0] == '#' then 1 + HashRun(line[1..]) else 0
  }

  /**
   * `line.match(/^(#{1,3})\s+(.*)$/)` and the item made from it. The greedy `#{1,3}` must take
   * every leading `#` for `\s` to follow, the greedy `\s+` leaves `(.*)` the rest without its
   * leading whitespace, and `.` matches no line terminator.
   */
  function HeadingOf(line: string): Option<TocItem> {
    var n := HashRun(line);
    if 1 <= n <= 3 && n < |line| && IsSpace(line[n]) && NoLineTerminator(TrimStart(line[n..])) then
      var text := Trim(TrimStart(line[n..]));
      Some(TocItem(Slugify(text), text, n))
    else None
  }

  /** `.filter(Boolean)` over the mapped lines: the items, with the non-matches dropped. */
  function Present<T>(s: seq<Option<T>>): seq<T> {
    if s == [] then []
    else (if s[0].Some? then [s[0].value] else []) + Present(s[1..])
  }

  /** `extractToc`. */
  function ExtractToc(markdown: string): seq<TocItem> {
    Present(Seqs.Map(HeadingOf, Split(markdown, '\n')))
  }

  /** A heading line of level `level`: that many `#`, then whitespace, then one line of text. */
  predicate IsHeading(line: string, level: nat, body: string) {
    1 <= level <= 3
    && |line| == level + |body| && (forall i :: 0 <= i < level ==> line[i] == '#') && line[level..] == body
    && body != [] && IsSpace(body[0]) && NoLineTerminator(TrimStart(body))
  }

  lemma TrimStartTwice(s: string)
    ensures TrimStart(TrimStart(s)) == TrimStart(s)
  {
  }

  /** Every heading line gives the item with its level, its trimmed text and that text's slug. */
  lemma HeadingComplete(line: string, level: nat, body: string)
    requires IsHeading(line, level, body)
    ensures HeadingOf(line) == Some(TocItem(Slugify(Trim(body)), Trim(body), level))
  {
    assert HashRun(line) == level;
    TrimStartTwice(body);
  }

  /** ... and nothing else gives an item. */
  lemma HeadingSound(line: string)
    requires HeadingOf(line).Some?
    ensures var t := HeadingOf(line).value;
      IsHeading(line, t.level, line[t.level..]) && t.text == Trim(line[t.level..]) && t.id == Slugify(t.text)
  {
    TrimStartTwice(line[HashRun(line)..]);
  }

  /** A line opening with four or more `#` is no heading. */
  lemma DeepHeading(line: string)
    requires StartsWith(line, "####")
    ensures HeadingOf(line) == None
  {
    assert line[..4] == "####";
    assert line[0] == '#' && line[1] == '#' && line[2] == '#' && line[3] == '#';
    HashRunAtLeast(line, 4);
  }

  lemma {:induction false} HashRunAtLeast(line: string, k: nat)
    requires k <= |line| && forall i :: 0 <= i < k ==> line[i] == '#'
    ensures HashRun(line) >= k
  {
    if k > 0 {
      HashRunAtLeast(line[1..], k - 1);
    }
  }

  /** A heading whose text runs up to a carriage return, as in a CRLF file, is not matched. */
  lemma CarriageReturnHeading(line: string, level: nat, text: string)
    requires 1 <= level <= 3 && text != [] && !IsSpace(text[0])
    requires line == seq(level, _ => '#') + " " + text + "\r"
    ensures HeadingOf(line) == None
  {
    var body := " " + text + "\r";
    assert line == seq(level, _ => '#') + body;
    assert line[level..] == body;
    HashRunOf(line, level);
    assert body[1..] == text + "\r";
    assert TrimStart(body) == TrimStart(body[1..]);
    assert TrimStart(body[1..]) == body[1..];
    assert IsLineTerminator(body[1..][|body| - 2]);
  }

  lemma HashRunOf(line: string, level: nat)
    requires level < |line| && (forall i :: 0 <= i < level ==> line[i] == '#') && line[level] != '#'
    ensures HashRun(line) == level
  {
    HashRunAtLeast(line, level);
  }

  function HasHeading(line: string): bool {
    HeadingOf(line).Some?
  }

  function HeadingItem(line: string): TocItem {
    HeadingOf(line).GetOr(TocItem("", "", 0))
  }

  /** One item per heading line, in line order: `extractToc` filters the heading lines, then maps. */
  lemma {:induction false} TocFollowsHeadings(lines: seq<string>)
    ensures Present(Seqs.Map(HeadingOf, lines)) == Seqs.Map(HeadingItem, Seqs.Filter(HasHeading, lines))
  {
    if lines != [] {
      TocFollowsHeadings(lines[1..]);
      assert Seqs.Map(HeadingOf, lines)[1..] == Seqs.Map(HeadingOf, lines[1..]);
    }
  }

  lemma TocLines(markdown: string)
    ensures ExtractToc(markdown) == Seqs.Map(HeadingItem, Seqs.Filter(HasHeading, Split(markdown, '\n')))
  {
    TocFollowsHeadings(Split(markdown, '\n'));
  }

  /**
   * Every item has a level from 1 to 3, a text that is trimmed, and the slug of that text as its
   * id, which has no whitespace in it.
   */
  lemma TocItemsWellFormed(markdown: string)
    ensures forall t :: t in ExtractToc(markdown) ==>
      1 <= t.level <= 3 && Trim(t.text) == t.text && t.id == Slugify(t.text)
      && forall c :: c in t.id ==> SlugChar(c)
  {
    var lines := Split(markdown, '\n');
    TocLines(markdown);
    var heads := Seqs.Filter(HasHeading, lines);
    forall t | t in ExtractToc(markdown)
      ensures 1 <= t.level <= 3 && Trim(t.text) == t.text && t.id == Slugify(t.text)
      ensures forall c :: c in t.id ==> SlugChar(c)
    {
      var k :| 0 <= k < |heads| && t == HeadingItem(heads[k]);
      assert heads[k] in heads;
      TrimIdempotent(t.text);
      SlugifyCharset(t.text);
    }
  }

  /* ---------------- gallery ---------------- */

  /** The folder in a template literal: `undefined` when the path has too few pieces. */
  function FolderText(imagePath: string): string {
    match FolderFromImagePath(imagePath)
    case Some(f) => f
    case None => "undefined"
  }

  function Qualify(folder: string, m: Galleries.MediaItem): Galleries.MediaItem {
    m.(src := if StartsWith(m.src, "/") then m.src else Projects.ImageRoot + folder + "/" + m.src)
  }

  /** `gallery`: the media with every relative `src` put under the project's folder. */
  function Gallery(project: Option<PortfolioGrid.Project>, media: seq<Galleries.MediaItem>): seq<Galleries.MediaItem> {
    if project.None? || media == [] then []
    else
      var folder := FolderText(project.value.image);
      Seqs.Map((m: Galleries.MediaItem) => Qualify(folder, m), media)
  }

  /**
   * Qualification keeps the length, the order, every type and title; a `src` starting with "/"
   * is kept, any other one is put under `/portfolio-images/<folder>/`.
   */
  lemma GalleryEntries(project: Option<PortfolioGrid.Project>, media: seq<Galleries.MediaItem>)
    requires project.Some?
    ensures var g := Gallery(project, media);
      var folder := FolderText(project.value.image);
      |g| == |media|
      && forall i :: 0 <= i < |media| ==>
        g[i].kind == media[i].kind && g[i].title == media[i].title
        && (StartsWith(media[i].src, "/") ==> g[i].src == media[i].src)
        && (!StartsWith(media[i].src, "/") ==> g[i].src == Projects.ImageRoot + folder + "/" + media[i].src)
  {
  }

  /** No project or no media: no gallery. */
  lemma GalleryEmpty(project: Option<PortfolioGrid.Project>, media: seq<Galleries.MediaItem>)
    requires project.None? || media == []
    ensures Gallery(project, media) == []
  {
  }

  lemma RootedPath(folder: string, src: string)
    ensures StartsWith(Projects.ImageRoot + folder + "/" + src, "/")
  {
    assert (Projects.ImageRoot + folder + "/" + src)[0] == '/';
  }

  /** Every qualified path is absolute, so qualifying the gallery again changes nothing. */
  lemma GalleryIdempotent(project: Option<PortfolioGrid.Project>, media: seq<Galleries.MediaItem>)
    ensures Gallery(project, Gallery(project, media)) == Gallery(project, media)
  {
    if project.Some? && media != [] {
      var folder := FolderText(project.value.image);
      var g := Gallery(project, media);
      forall i | 0 <= i < |g| ensures Qualify(folder, g[i]) == g[i] {
        if !StartsWith(media[i].src, "/") {
          RootedPath(folder, media[i].src);
        }
      }
    }
  }

  /**
   * For a project whose cover the catalog builder wrote, a relative `src` is put under the
   * project's own folder: the gallery and the catalog agree on where the images live.
   */
  lemma GalleryUnderCoverFolder(project: PortfolioGrid.Project, folder: string, cover: seq<Galleries.MediaItem>, m: Galleries.MediaItem)
    requires '/' !in folder && project.image == Projects.CoverImage(folder, cover)
    requires !StartsWith(m.src, "/")
    ensures Gallery(Some(project), [m]) == [m.(src := Projects.ImageRoot + folder + "/" + m.src)]
  {
    CoverFolder(folder, cover);
  }

  /* ---------------- nextImage / prevImage ---------------- */

  /** JavaScript's `%`, whose result takes the sign of the dividend. */
  function JsRem(a: int, n: int): int
    requires n > 0
  {
    if a >= 0 then a % n else -((-a) % n)
  }

  /** `nextImage`'s update of `currentIndex`; nothing happens on an empty gallery. */
  function NextIndex(i: int, n: nat): int {
    if n == 0 then i else JsRem(i + 1, n)
  }

  /** `prevImage`'s update of `currentIndex`. */
  function PrevIndex(i: int, n: nat): int {
    if n == 0 then i else JsRem(i - 1 + n, n)
  }

  /** On an empty gallery both buttons leave the index as it is. */
  lemma EmptyGalleryStays(i: int)
    ensures NextIndex(i, 0) == i && PrevIndex(i, 0) == i
  {
  }

  /** `a` divided by `n` leaves quotient `q` and remainder `r`. */
  lemma ModUnique(a: int, n: int, q: int, r: int)
    requires n > 0 && 0 <= r < n && a == q * n + r
    ensures a % n == r
  {
    var q', r' := a / n, a % n;
    var d := q - q';
    assert d * n == r' - r;
    if d > 0 {
      MulAtLeast(d, n);
    } else if d < 0 {
      MulAtLeast(-d, n);
    }
  }

  lemma {:induction false} MulAtLeast(d: int, n: int)
    requires d >= 1 && n > 0
    ensures d * n >= n
  {
    if d > 1 {
      MulAtLeast(d - 1, n);
      assert d * n == (d - 1) * n + n;
    }
  }

  /** Within the gallery, the buttons step one place forwards or backwards, wrapping round. */
  lemma IndexSteps(i: int, n: nat)
    requires 0 <= i < n
    ensures NextIndex(i, n) == (if i == n - 1 then 0 else i + 1)
    ensures PrevIndex(i, n) == (if i == 0 then n - 1 else i - 1)
  {
    if i < n - 1 {
      ModUnique(i + 1, n, 0, i + 1);
    } else {
      ModUnique(i + 1, n, 1, 0);
    }
    if i > 0 {
      ModUnique(i - 1 + n, n, 1, i - 1);
    } else {
      ModUnique(i - 1 + n, n, 0, n - 1);
    }
  }

  /** So an index in the gallery stays in it. */
  lemma IndexInRange(i: int, n: nat)
    requires 0 <= i < n
    ensures 0 <= NextIndex(i, n) < n && 0 <= PrevIndex(i, n) < n
  {
    IndexSteps(i, n);
  }

  /** Forwards then backwards, or backwards then forwards, comes back to the same image. */
  lemma NextPrevInverse(i: int, n: nat)
    requires 0 <= i < n
    ensures PrevIndex(NextIndex(i, n), n) == i && NextIndex(PrevIndex(i, n), n) == i
  {
    IndexSteps(i, n);
    IndexSteps(NextIndex(i, n), n);
    IndexSteps(PrevIndex(i, n), n);
  }

  /** The index after `k` presses of the forward button. */
  function NextTimes(i: int, n: nat, k: nat): int {
    if k == 0 then i else NextIndex(NextTimes(i, n, k - 1), n)
  }

  /** `k` forward presses move the index `k` places round the gallery. */
  lemma {:induction false} NextTimesAdvance(i: int, n: nat, k: nat)
    requires 0 <= i < n
    ensures NextTimes(i, n, k) == (i + k) % n
  {
    if k > 0 {
      NextTimesAdvance(i, n, k - 1);
      var j := (i + k - 1) % n;
      IndexSteps(j, n);
      ModSucc(i + k - 1, n);
    }
  }

  lemma ModSucc(a: nat, n: nat)
    requires n > 0
    ensures (a + 1) % n == (if a % n == n - 1 then 0 else a % n + 1)
  {
    var q, r := a / n, a % n;
    if r == n - 1 {
      assert a + 1 == (q + 1) * n + 0;
      ModUnique(a + 1, n, q + 1, 0);
    } else {
      ModUnique(a + 1, n, q, r + 1);
    }
  }

  /** As many forward presses as there are images come back to the first one pressed from. */
  lemma FullTurn(i: int, n: nat)
    requires 0 <= i < n
    ensures NextTimes(i, n, n) == i
  {
    NextTimesAdvance(i, n, n);
    ModUnique(i + n, n, 1, i);
  }

  /* ---------------- extraMetadataEntries ---------------- */

  function NotReserved<V>(entry: (string, V)): bool {
    entry.0 !in ReservedKeys
  }

  /** `Object.entries(frontmatter).filter(([key]) => !RESERVED_KEYS.has(key))`. */
  function ExtraMetadata<V(!new)>(entries: seq<(string, V)>): seq<(string, V)> {
    Seqs.Filter(NotReserved, entries)
  }

  /** Exactly the entries whose key is not reserved, in their original order. */
  lemma ExtraMetadataExactly<V(!new)>(entries: seq<(string, V)>)
    ensures forall e :: e in ExtraMetadata(entries) <==> e in entries && e.0 !in ReservedKeys
    ensures Seqs.IsSubsequence(ExtraMetadata(entries), entries)
  {
  }

  /** None of the fields the modal shows in fixed places comes back as extra metadata. */
  lemma ExtraMetadataOmitsFixedFields<V(!new)>(entries: seq<(string, V)>)
    ensures forall e :: e in ExtraMetadata(entries) ==>
      e.0 != "title" && e.0 != "category" && e.0 != "date" && e.0 != "location" && e.0 != "description" && e.0 != "layout"
  {
  }

  /** An entry list without reserved keys is shown whole. */
  lemma ExtraMetadataKeepsUnreserved<V(!new)>(entries: seq<(string, V)>)
    requires forall i :: 0 <= i < |entries| ==> entries[i].0 !in ReservedKeys
    ensures ExtraMetadata(entries) == entries
  {
    Seqs.FilterAll(NotReserved, entries);
  }

  /* ---------------- modal state ---------------- */

  /** `currentIndex` and `detailsExpanded`, the state the modal updates step by step. */
  class ModalState {
    var currentIndex: int
    var detailsExpanded: bool

    /** `useState(0)` and `useState(false)`. */
    constructor ()
      ensures currentIndex == 0 && !detailsExpanded
    {
      currentIndex := 0;
      detailsExpanded := false;
    }

    predicate InGallery(n: nat)
      reads this
    {
      0 <= currentIndex < n
    }

    /** `nextImage` over a gallery of `n` images. */
    method NextImage(n: nat)
      modifies this
      ensures currentIndex == NextIndex(old(currentIndex), n)
      ensures detailsExpanded == old(detailsExpanded)
      ensures old(InGallery(n)) ==> InGallery(n)
    {
      if n == 0 {
        return;
      }
      if InGallery(n) {
        IndexInRange(currentIndex, n);
      }
      currentIndex := JsRem(currentIndex + 1, n);
    }

    /** `prevImage` over a gallery of `n` images. */
    method PrevImage(n: nat)
      modifies this
      ensures currentIndex == PrevIndex(old(currentIndex), n)
      ensures detailsExpanded == old(detailsExpanded)
      ensures old(InGallery(n)) ==> InGallery(n)
    {
      if n == 0 {
        return;
      }
      if InGallery(n) {
        IndexInRange(currentIndex, n);
      }
      currentIndex := JsRem(currentIndex - 1 + n, n);
    }

    /** The effect run when the modal opens or its project changes: back to the first image, details folded. */
    method OnOpen(isOpen: bool, hasProject: bool)
      modifies this
      ensures isOpen && hasProject ==> currentIndex == 0 && !detailsExpanded
      ensures !(isOpen && hasProject) ==> currentIndex == old(currentIndex) && detailsExpanded == old(detailsExpanded)
    {
      if isOpen && hasProject {
        currentIndex := 0;
        detailsExpanded := false;
      }
    }

    /**
     * The key handler, registered while the modal is open: the arrows move through the gallery
     * and Escape asks the page to close the modal.
     */
    method OnKey(isOpen: bool, key: string, n: nat) returns (close: bool)
      modifies this
      ensures close <==> isOpen && key == "Escape"
      ensures currentIndex == (if !isOpen then old(currentIndex)
        else if key == "ArrowRight" then NextIndex(old(currentIndex), n)
        else if key == "ArrowLeft" then PrevIndex(old(currentIndex), n)
        else old(currentIndex))
      ensures detailsExpanded == old(detailsExpanded)
    {
      close := false;
      if !isOpen {
        return;
      }
      if key == "ArrowRight" {
        NextImage(n);
      }
      if key == "ArrowLeft" {
        PrevImage(n);
      }
      if key == "Escape" {
        close := true;
      }
    }
  }
}
