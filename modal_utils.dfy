/**
 * The helpers shared by the project modal: `slugify`, which turns a heading into an anchor id,
 * `getFolderFromImagePath`, which recovers a project's folder from its cover path, and the set
 * of front-matter keys the modal shows in fixed places rather than as extra metadata.
 */
module ModalUtils {
  import opened Wrappers
  import opened Text
  import Seqs
  import Projects
  import Galleries

  /** The characters `replace(/[^\w\s-]/g, "")` keeps. */
  predicate KeptChar(c: char) {
    IsWordChar(c) || IsSpace(c) || c == '-'
  }

  /** The characters a slug is made of: `[a-z0-9_-]`. */
  predicate SlugChar(c: char) {
    ('a' <= c <= 'z') || IsDigit(c) || c == '_' || c == '-'
  }

  /** `replace(/\s+/g, "-")`: every maximal run of whitespace becomes one hyphen. */
  function Hyphenate(s: string): (r: string)
    ensures |r| <= |s|
    decreases |s|
  {
    if s == [] then []
    else if IsSpace(s[0]) then ['-'] + Hyphenate(TrimStart(s[1..]))
    else [s[0]] + Hyphenate(s[1..])
  }

  /** `s.toLowerCase().trim().replace(/[^\w\s-]/g, "").replace(/\s+/g, "-")`. */
  function Slugify(s: string): string {
    Hyphenate(Seqs.Filter(KeptChar, Trim(ToLower(s))))
  }

  /** `imagePath.split("/")[2]`, which is `undefined` when there are fewer than three pieces. */
  function FolderFromImagePath(imagePath: string): (r: Option<string>)
    ensures r.Some? ==> '/' !in r.value
  {
    var parts := Split(imagePath, '/');
    if |parts| >= 3 then Some(parts[2]) else None
  }

  /** `RESERVED_KEYS`: the front-matter keys the modal does not list as extra metadata. */
  const ReservedKeys: set<string> := {"title", "category", "date", "location", "description", "layout"}

  /* ---------------- slugify ---------------- */

  lemma {:induction false} TrimStartChars(s: string)
    ensures forall c :: c in TrimStart(s) ==> c in s
  {
    TrimStartCutsSpace(s);
  }

  lemma TrimChars(s: string)
    ensures forall c :: c in Trim(s) ==> c in s
  {
    TrimStartChars(s);
    TrimEndCutsSpace(TrimStart(s));
  }

  /** A hyphenated string holds only hyphens and the characters of its input that are not whitespace. */
  lemma {:induction false} HyphenateChars(s: string)
    ensures forall c :: c in Hyphenate(s) ==> c == '-' || (c in s && !IsSpace(c))
    decreases |s|
  {
    if s != [] {
      if IsSpace(s[0]) {
        TrimStartChars(s[1..]);
        HyphenateChars(TrimStart(s[1..]));
      } else {
        HyphenateChars(s[1..]);
      }
    }
  }

  /** A string without whitespace is left as it is. */
  lemma {:induction false} HyphenateNoSpace(s: string)
    requires forall i :: 0 <= i < |s| ==> !IsSpace(s[i])
    ensures Hyphenate(s) == s
  {
    if s != [] {
      HyphenateNoSpace(s[1..]);
    }
  }

  /**
   * One maximal run of whitespace after a stretch without any becomes exactly one hyphen, and the
   * rest is hyphenated on its own.
   */
  lemma {:induction false} HyphenateRun(w: string, run: string, rest: string)
    requires forall i :: 0 <= i < |w| ==> !IsSpace(w[i])
    requires run != [] && AllSpace(run)
    requires rest == [] || !IsSpace(rest[0])
    ensures Hyphenate(w + run + rest) == w + "-" + Hyphenate(rest)
    decreases |w|
  {
    if w == [] {
      assert w + run + rest == run + rest;
      HyphenateRunStart(run, rest);
    } else {
      assert (w + run + rest)[1..] == w[1..] + run + rest;
      HyphenateRun(w[1..], run, rest);
      assert [w[0]] + (w[1..] + "-" + Hyphenate(rest)) == w + "-" + Hyphenate(rest);
    }
  }

  lemma HyphenateRunStart(run: string, rest: string)
    requires run != [] && AllSpace(run)
    requires rest == [] || !IsSpace(rest[0])
    ensures Hyphenate(run + rest) == "-" + Hyphenate(rest)
  {
    var s := run + rest;
    assert s[1..] == run[1..] + rest;
    AllSpacePrefix(run[1..], rest);
  }

  lemma {:induction false} AllSpacePrefix(run: string, rest: string)
    requires AllSpace(run)
    requires rest == [] || !IsSpace(rest[0])
    ensures TrimStart(run + rest) == rest
  {
    if run != [] {
      assert (run + rest)[1..] == run[1..] + rest;
      AllSpacePrefix(run[1..], rest);
    } else {
      assert run + rest == rest;
    }
  }

  /** Every character of a slug is a lower-case ASCII letter, a digit, `_` or `-`. */
  lemma SlugifyCharset(s: string)
    ensures forall c :: c in Slugify(s) ==> SlugChar(c)
  {
    var lower := ToLower(s);
    var kept := Seqs.Filter(KeptChar, Trim(lower));
    HyphenateChars(kept);
    TrimChars(lower);
    forall c | c in Slugify(s) ensures SlugChar(c) {
      if c != '-' {
        assert c in kept && !IsSpace(c);
        assert c in lower;
      }
    }
  }

  /** In particular no whitespace survives. */
  lemma SlugifyNoSpace(s: string)
    ensures forall c :: c in Slugify(s) ==> !IsSpace(c)
  {
    SlugifyCharset(s);
  }

  lemma {:induction false} ToLowerSlug(t: string)
    requires forall c :: c in t ==> SlugChar(c)
    ensures ToLower(t) == t
  {
    forall i | 0 <= i < |t| ensures ToLower(t)[i] == t[i] {
      assert SlugChar(t[i]);
    }
  }

  /** A slug is its own slug. */
  lemma SlugifyIdempotent(s: string)
    ensures Slugify(Slugify(s)) == Slugify(s)
  {
    var t := Slugify(s);
    SlugifyCharset(s);
    ToLowerSlug(t);
    forall i | 0 <= i < |t| ensures !IsSpace(t[i]) {
      assert t[i] in t;
    }
    TrimNoSpace(t);
    Seqs.FilterAll(KeptChar, t);
    HyphenateNoSpace(t);
  }

  /** A slug is never longer than the text it comes from. */
  lemma SlugifyLength(s: string)
    ensures |Slugify(s)| <= |s|
  {
  }

  /* ---------------- getFolderFromImagePath ---------------- */

  /** The folder is defined exactly when the path has at least two slashes. */
  lemma FolderDefinedIff(imagePath: string)
    ensures FolderFromImagePath(imagePath).Some? <==> multiset(imagePath)['/'] >= 2
  {
    SplitLength(imagePath, '/');
  }

  /** The folder is the piece after the second slash, up to the next one. */
  lemma ThirdSegment(a: string, b: string, c: string, rest: string)
    requires '/' !in a && '/' !in b && '/' !in c
    ensures FolderFromImagePath(a + "/" + b + "/" + c + "/" + rest) == Some(c)
  {
    SplitAfter(c, '/', rest);
    SplitAfter(b, '/', c + "/" + rest);
    SplitAfter(a, '/', b + "/" + (c + "/" + rest));
    assert a + "/" + b + "/" + c + "/" + rest == a + ['/'] + (b + ['/'] + (c + ['/'] + rest));
  }

  /** ... or up to the end when no slash follows. */
  lemma LastSegment(a: string, b: string, c: string)
    requires '/' !in a && '/' !in b && '/' !in c
    ensures FolderFromImagePath(a + "/" + b + "/" + c) == Some(c)
  {
    SplitNone(c, '/');
    SplitAfter(b, '/', c);
    SplitAfter(a, '/', b + "/" + c);
    assert a + "/" + b + "/" + c == a + ['/'] + (b + ['/'] + c);
  }

  /** `getFolderFromImagePath` inverts the catalog's cover path for a folder name without a slash. */
  lemma CoverPathFolder(folder: string, file: string)
    requires '/' !in folder
    ensures FolderFromImagePath(Projects.ImageRoot + folder + "/" + file) == Some(folder)
  {
    var a, b := "", "portfolio-images";
    assert Projects.ImageRoot + folder + "/" + file == a + "/" + b + "/" + folder + "/" + file;
    ThirdSegment(a, b, folder, file);
  }

  /** So the folder of every cover the catalog builder writes is the project's folder. */
  lemma CoverFolder(folder: string, media: seq<Galleries.MediaItem>)
    requires '/' !in folder
    ensures FolderFromImagePath(Projects.CoverImage(folder, media)) == Some(folder)
  {
    var first := Projects.FirstImage(media);
    if first.Some? && first.value.src != "" {
      CoverPathFolder(folder, first.value.src);
    } else {
      CoverPathFolder(folder, Projects.FallbackCover);
    }
  }

  /** A path with fewer than two slashes has no folder. */
  lemma NoFolder(imagePath: string)
    requires multiset(imagePath)['/'] < 2
    ensures FolderFromImagePath(imagePath) == None
  {
    FolderDefinedIff(imagePath);
  }

  /* ---------------- RESERVED_KEYS ---------------- */

  /** Every field the catalog builder reads from the front matter is reserved. */
  lemma CatalogFieldsReserved()
    ensures {"title", "category", "date", "location"} <= ReservedKeys
  {
  }
}
