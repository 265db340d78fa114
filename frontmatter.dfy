/**
 * `parseFrontmatter` of the project indexer: a minimal YAML front-matter reader. It drops a
 * byte-order mark, turns CRLF into LF, and, when the text opens with `---` and a later line
 * starts with `---`, reads the lines in between as `key: value` pairs and `- item` lists.
 */
module Frontmatter {
  import opened Wrappers
  import opened Text
  import Seqs

  /** A front-matter value: a string, or a list of strings (an empty value starts a list). */
  datatype FmValue = Scalar(s: string) | List(items: seq<string>)

  /** The parser's result: the key/value data and the body after the closing delimiter. */
  datatype Parsed = Parsed(data: map<string, FmValue>, content: string)

  const Bom: char := '\U{FEFF}'

  /** `replace(/^﻿/, "")`: one leading byte-order mark is dropped. */
  function StripBom(t: string): (r: string)
    ensures |t| - 1 <= |r| <= |t| && r == t[|t| - |r|..]
    ensures |r| < |t| <==> t != [] && t[0] == Bom
  {
    if t != [] && t[0] == Bom then t[1..] else t
  }

  /** `replace(/\r\n/g, "\n")`: every CRLF pair found scanning left to right becomes LF. */
  function ReplaceCrlf(t: string): (r: string)
    ensures |r| <= |t|
  {
    if t == [] then []
    else if |t| >= 2 && t[0] == '\r' && t[1] == '\n' then "\n" + ReplaceCrlf(t[2..])
    else [t[0]] + ReplaceCrlf(t[1..])
  }

  /** The same text with Windows line endings: each LF preceded by CR. */
  function ToCrlf(t: string): (r: string)
    ensures |r| == |t| + multiset(t)['\n']
  {
    if t == [] then []
    else
      assert t == [t[0]] + t[1..];
      (if t[0] == '\n' then "\r\n" else [t[0]]) + ToCrlf(t[1..])
  }

  /** A text without carriage returns is left alone by the CRLF rewrite. */
  lemma {:induction false} ReplaceCrlfNoCr(t: string)
    requires '\r' !in t
    ensures ReplaceCrlf(t) == t
  {
    if t != [] {
      ReplaceCrlfNoCr(t[1..]);
      assert [t[0]] + t[1..] == t;
    }
  }

  /** Converting LF to CRLF and normalising again gives back the LF text. */
  lemma {:induction false} CrlfRoundTrip(t: string)
    requires '\r' !in t
    ensures ReplaceCrlf(ToCrlf(t)) == t
  {
    if t != [] {
      CrlfRoundTrip(t[1..]);
      var w := ToCrlf(t);
      if t[0] == '\n' {
        assert w == "\r\n" + ToCrlf(t[1..]);
        assert w[2..] == ToCrlf(t[1..]);
      } else {
        assert w == [t[0]] + ToCrlf(t[1..]);
        assert w[1..] == ToCrlf(t[1..]);
      }
      assert [t[0]] + t[1..] == t;
    }
  }

  /** The characters a key may consist of: `[a-zA-Z0-9_-]`. */
  predicate IsKeyChar(c: char) {
    IsAsciiLetter(c) || IsDigit(c) || c == '_' || c == '-'
  }

  /** Length of the longest prefix of key characters. */
  function KeyRun(s: string): (n: nat)
    ensures n <= |s|
    ensures forall i :: 0 <= i < n ==> IsKeyChar(s[i])
    ensures n == |s| || !IsKeyChar(s[n])
  {
    if s != [] && IsKeyChar(s[0]) then 1 + KeyRun(s[1..]) else 0
  }

  /**
   * `line.match(/^([a-zA-Z0-9_-]+):\s*(.*)$/)`: the key, and the value trimmed. The key is
   * the run of key characters that a colon ends; `.` does not match a line terminator, so
   * after the whitespace that `\s*` takes the rest of the line must hold none.
   */
  function MatchKeyLine(line: string): Option<(string, string)> {
    var n := KeyRun(line);
    if n == 0 || n == |line| || line[n] != ':' then None
    else if NoLineTerminator(TrimStart(line[n + 1..])) then Some((line[..n], Trim(line[n + 1..])))
    else None
  }

  /** The declarative reading of the key pattern: a key, a colon, and a rest without line breaks past its leading blanks. */
  predicate IsKeyLine(line: string, key: string, rest: string) {
    KeyColon(line, key, rest) && NoLineTerminator(TrimStart(rest))
  }

  /** `line` is a non-empty run of key characters, a colon, and `rest`. */
  predicate KeyColon(line: string, key: string, rest: string) {
    && key != []
    && (forall i :: 0 <= i < |key| ==> IsKeyChar(key[i]))
    && line == key + [':'] + rest
  }

  lemma {:induction false} KeyRunOf(key: string, rest: string)
    requires forall i :: 0 <= i < |key| ==> IsKeyChar(key[i])
    ensures KeyRun(key + [':'] + rest) == |key|
  {
    if key == [] {
      assert key + [':'] + rest == [':'] + rest;
    } else {
      assert (key + [':'] + rest)[1..] == key[1..] + [':'] + rest;
      KeyRunOf(key[1..], rest);
    }
  }

  /** Every line of the form `key:rest` matches, with that key and the rest trimmed. */
  lemma MatchKeyLineComplete(line: string, key: string, rest: string)
    requires IsKeyLine(line, key, rest)
    ensures MatchKeyLine(line) == Some((key, Trim(rest)))
  {
    KeyRunOf(key, rest);
    assert line[..|key|] == key;
    assert line[|key| + 1..] == rest;
  }

  /** Every match is a line of that form. */
  lemma MatchKeyLineSound(line: string, key: string, value: string)
    requires MatchKeyLine(line) == Some((key, value))
    ensures IsKeyLine(line, key, line[|key| + 1..]) && value == Trim(line[|key| + 1..])
  {
    var n := KeyRun(line);
    KeyLineAt(line, n);
  }

  /** A run of key characters that a colon ends is a key and a colon. */
  lemma KeyLineAt(line: string, n: nat)
    requires 0 < n < |line| && line[n] == ':'
    requires forall i :: 0 <= i < n ==> IsKeyChar(line[i])
    ensures KeyColon(line, line[..n], line[n + 1..])
  {
    assert line == line[..n] + [line[n]] + line[n + 1..];
  }

  /** `value.replace(/^q(.*)q$/, "$1")`: one pair of wrapping quotes is dropped. */
  function StripQuotes(v: string, q: char): (r: string)
    ensures |r| <= |v|
    ensures r != v ==> |v| >= 2 && v[0] == q && v[|v| - 1] == q && r == v[1..|v| - 1]
    ensures |v| >= 2 && v[0] == q && v[|v| - 1] == q && NoLineTerminator(v[1..|v| - 1]) ==> r == v[1..|v| - 1]
  {
    if |v| >= 2 && v[0] == q && v[|v| - 1] == q && NoLineTerminator(v[1..|v| - 1]) then v[1..|v| - 1] else v
  }

  /** The stored value: double quotes, then single quotes stripped; nothing left means an empty list. */
  function ValueOf(raw: string): FmValue {
    var v := StripQuotes(StripQuotes(raw, '"'), '\'');
    if v == "" then List([]) else Scalar(v)
  }

  lemma ValueExamples()
    ensures ValueOf("\"Test\"") == Scalar("Test")
    ensures ValueOf("'x'") == Scalar("x")
    ensures ValueOf("\"'x'\"") == Scalar("x")
    ensures ValueOf("") == List([]) && ValueOf("\"\"") == List([])
    ensures ValueOf("\"a'") == Scalar("\"a'")
  {
    assert StripQuotes("\"Test\"", '"') == "Test";
    assert StripQuotes("Test", '\'') == "Test";
    assert StripQuotes("'x'", '"') == "'x'";
    assert StripQuotes("\"'x'\"", '"') == "'x'";
    assert StripQuotes("'x'", '\'') == "x";
    assert StripQuotes("\"\"", '"') == "";
    assert StripQuotes("\"a'", '"') == "\"a'";
    assert StripQuotes("\"a'", '\'') == "\"a'";
  }

  /** The loop's state: the data so far and the key a `- item` line appends to. */
  datatype State = State(data: map<string, FmValue>, key: Option<string>)

  const Initial: State := State(map[], None)

  /** The text of a `- item` line, or None when the line is not one. */
  function ItemOf(line: string): Option<string> {
    var t := Trim(line);
    if StartsWith(t, "- ") then Some(Trim(t[2..])) else None
  }

  /** The items `key` holds, or none when it holds a string or nothing. */
  function ItemsAt(data: map<string, FmValue>, key: string): seq<string> {
    if key in data && data[key].List? then data[key].items else []
  }

  /** What the loop body sees of one line: its `- item` text and its `key: value` match, each when present. */
  datatype LineView = LineView(item: Option<string>, entry: Option<(string, string)>)

  /** `line = line.trimEnd()`, then the two tests the loop body makes of it. */
  function View(rawLine: string): LineView {
    var line := TrimEnd(rawLine);
    LineView(ItemOf(line), MatchKeyLine(line))
  }

  function Views(lines: seq<string>): (r: seq<LineView>)
    ensures |r| == |lines|
    ensures forall i :: 0 <= i < |lines| ==> r[i] == View(lines[i])
  {
    Seqs.Map(View, lines)
  }

  /**
   * One iteration of the loop: an item with a current key is appended to that key's list;
   * otherwise a key match sets the key and makes it current; otherwise nothing changes.
   */
  function Step(st: State, v: LineView): State {
    if v.item.Some? && st.key.Some? then
      State(st.data[st.key.value := List(ItemsAt(st.data, st.key.value) + [v.item.value])], st.key)
    else
      match v.entry
      case Some((k, raw)) => State(st.data[k := ValueOf(raw)], Some(k))
      case None => st
  }

  /** The state after the given lines, read first to last. */
  function Run(views: seq<LineView>): State {
    if views == [] then Initial else Step(Run(views[..|views| - 1]), views[|views| - 1])
  }

  /** The text after the BOM and line-ending fixes. */
  function Normalize(mdText: string): string {
    ReplaceCrlf(StripBom(mdText))
  }

  /** What `parseFrontmatter` returns. */
  function ParseSpec(mdText: string): Parsed {
    ParseNormalized(Normalize(mdText))
  }

  /** What `parseFrontmatter` returns, in terms of the normalised text. */
  function ParseNormalized(t: string): Parsed {
    if !StartsWith(t, "---") then Parsed(map[], t)
    else
      var end := IndexOf(t, "\n---", 3);
      if end == -1 then Parsed(map[], t)
      else Parsed(Run(Views(Split(Trim(t[3..end]), '\n'))).data, Trim(t[end + 4..]))
  }

  /** The `for (let line of lines)` loop: the data read from the front-matter lines. */
  method ReadLines(lines: seq<string>) returns (data: map<string, FmValue>)
    ensures data == Run(Views(lines)).data
  {
    ghost var vs := Views(lines);
    data := map[];
    var currentKey: Option<string> := None;
    var i := 0;
    while i < |lines|
      invariant 0 <= i <= |lines|
      invariant State(data, currentKey) == Run(vs[..i])
    {
      RunSnoc(vs, i);
      var line := TrimEnd(lines[i]);
      var item := ItemOf(line);
      assert vs[i] == View(lines[i]);
      if item.Some? && currentKey.Some? {
        data := data[currentKey.value := List(ItemsAt(data, currentKey.value) + [item.value])];
      } else {
        var m := MatchKeyLine(line);
        if m.Some? {
          currentKey := Some(m.value.0);
          data := data[m.value.0 := ValueOf(m.value.1)];
        }
      }
      i := i + 1;
    }
    assert vs[..i] == vs;
  }

  lemma RunSnoc(vs: seq<LineView>, i: nat)
    requires i < |vs|
    ensures Run(vs[..i + 1]) == Step(Run(vs[..i]), vs[i])
  {
    assert vs[..i + 1][..i] == vs[..i];
  }

  /** `parseFrontmatter`. */
  method ParseFrontmatter(mdText: string) returns (data: map<string, FmValue>, content: string)
    ensures data == ParseSpec(mdText).data && content == ParseSpec(mdText).content
  {
    var t := Normalize(mdText);
    if !StartsWith(t, "---") {
      return map[], t;
    }
    var end := IndexOf(t, "\n---", 3);
    if end == -1 {
      return map[], t;
    }
    content := Trim(t[end + 4..]);
    data := ReadLines(Split(Trim(t[3..end]), '\n'));
  }

  /** Text that does not open with `---` has no data, and all of it is content. */
  lemma NoOpeningDelimiter(mdText: string)
    requires !StartsWith(Normalize(mdText), "---")
    ensures ParseSpec(mdText) == Parsed(map[], Normalize(mdText))
  {
  }

  /** Without a closing `---` line there is no data either, and the whole text is content. */
  lemma NoClosingDelimiter(mdText: string)
    requires forall i :: 3 <= i ==> !OccursAt(Normalize(mdText), "\n---", i)
    ensures ParseSpec(mdText) == Parsed(map[], Normalize(mdText))
  {
    var t := Normalize(mdText);
    if StartsWith(t, "---") {
      var end := IndexOf(t, "\n---", 3);
      assert end == -1;
    }
  }

  /**
   * A header closed by the first later line that starts with `---`: the data are read from
   * the trimmed header lines and the content is the trimmed rest.
   */
  lemma ClosedHeader(header: string, rest: string)
    requires !StartsWith(header, "---") && forall j :: !OccursAt(header, "\n---", j)
    ensures ParseNormalized("---" + "\n" + header + "\n---" + rest)
      == Parsed(Run(Views(Split(Trim("\n" + header), '\n'))).data, Trim(rest))
  {
    var t := "---" + "\n" + header + "\n---" + rest;
    var k := 4 + |header|;
    assert t[..3] == "---";
    assert t[k..k + 4] == "\n---";
    forall i | 3 <= i < k ensures !OccursAt(t, "\n---", i) {
      DelimiterNotBefore(header, rest, i);
    }
    assert OccursAt(t, "\n---", k);
    var end := IndexOf(t, "\n---", 3);
    assert end != -1 && !(end < k) && !(k < end);
    assert t[3..end] == "\n" + header;
    assert t[end + 4..] == rest;
  }

  lemma DelimiterNotBefore(header: string, rest: string, i: int)
    requires !StartsWith(header, "---") && forall j :: !OccursAt(header, "\n---", j)
    requires 3 <= i < 4 + |header|
    ensures !OccursAt("---" + "\n" + header + "\n---" + rest, "\n---", i)
  {
    var t := "---" + "\n" + header + "\n---" + rest;
    var k := 4 + |header|;
    if i + 4 > k {
      assert t[k] == '\n' && "\n---"[k - i] == '-';
      assert t[i..i + 4][k - i] == t[k];
    } else if i == 3 {
      assert t[4..7] == header[..3];
      assert t[3..7][1..] == t[4..7] && "\n---"[1..] == "---";
    } else {
      assert t[i..i + 4] == header[i - 4..i];
      assert !OccursAt(header, "\n---", i - 4);
    }
  }

  /** Lines none of which holds a line feed or starts with `---` join into a header with no closing line. */
  lemma {:induction false} JoinedHeaderOpen(lines: seq<string>)
    requires |lines| >= 1
    requires forall i :: 0 <= i < |lines| ==> '\n' !in lines[i] && !StartsWith(lines[i], "---")
    ensures !StartsWith(Join(lines, '\n'), "---")
    ensures forall j :: !OccursAt(Join(lines, '\n'), "\n---", j)
  {
    if |lines| == 1 {
      forall j ensures !OccursAt(lines[0], "\n---", j) {
        NoDelimiterInLine(lines[0], j);
      }
    } else {
      JoinedHeaderOpen(lines[1..]);
      HeaderLineThenRest(lines[0], Join(lines[1..], '\n'));
    }
  }

  lemma NoDelimiterInLine(line: string, j: int)
    requires '\n' !in line
    ensures !OccursAt(line, "\n---", j)
  {
    if 0 <= j < |line| {
      assert line[j] in line;
    }
  }

  /** A line with no line feed that does not start with `---`, then a line feed, then an open header, is an open header. */
  lemma HeaderLineThenRest(first: string, tail: string)
    requires '\n' !in first && !StartsWith(first, "---")
    requires !StartsWith(tail, "---") && forall j :: !OccursAt(tail, "\n---", j)
    ensures !StartsWith(first + "\n" + tail, "---")
    ensures forall j :: !OccursAt(first + "\n" + tail, "\n---", j)
  {
    var h := first + "\n" + tail;
    if |first| >= 3 {
      assert h[..3] == first[..3];
    } else {
      assert h[|first|] == '\n';
    }
    forall j ensures !OccursAt(h, "\n---", j) {
      JoinedAt(first, tail, j);
    }
  }

  lemma JoinedAt(first: string, tail: string, j: int)
    requires '\n' !in first
    requires !StartsWith(tail, "---") && forall j :: !OccursAt(tail, "\n---", j)
    ensures !OccursAt(first + "\n" + tail, "\n---", j)
  {
    var h := first + "\n" + tail;
    if 0 <= j && j + 4 <= |h| {
      if j < |first| {
        assert h[j] == first[j] && first[j] in first;
      } else if j == |first| {
        assert h[j + 1..j + 4] == tail[..3];
        assert h[j..j + 4][1..] == h[j + 1..j + 4] && "\n---"[1..] == "---";
      } else {
        var o := |first| + 1;
        assert h[o..] == tail;
        assert h[j..j + 4] == h[o..][j - o..j - o + 4];
        assert !OccursAt(tail, "\n---", j - o);
      }
    }
  }

  /**
   * A document `---`, header lines, `---`, rest: when no header line starts with `---` and the
   * header does not begin or end with whitespace, the data are exactly what the lines give.
   */
  lemma DelimitedLines(lines: seq<string>, rest: string)
    requires |lines| >= 1
    requires forall i :: 0 <= i < |lines| ==> '\n' !in lines[i] && !StartsWith(lines[i], "---")
    requires lines[0] != [] && !IsSpace(lines[0][0])
    requires lines[|lines| - 1] != [] && !IsSpace(lines[|lines| - 1][|lines[|lines| - 1]| - 1])
    ensures ParseNormalized("---" + "\n" + Join(lines, '\n') + "\n---" + rest) == Parsed(Run(Views(lines)).data, Trim(rest))
  {
    var h := Join(lines, '\n');
    JoinedHeaderOpen(lines);
    ClosedHeader(h, rest);
    JoinEnds(lines, '\n');
    assert ("\n" + h)[1..] == h;
    assert TrimStart("\n" + h) == TrimStart(h);
    TrimIdempotent(h);
    assert Trim("\n" + h) == h;
    SplitJoin(lines, '\n');
  }

  /** A byte-order mark in front of the text changes nothing. */
  lemma BomIgnored(mdText: string)
    requires mdText == [] || mdText[0] != Bom
    ensures ParseSpec([Bom] + mdText) == ParseSpec(mdText)
  {
    assert ([Bom] + mdText)[1..] == mdText;
    assert Normalize([Bom] + mdText) == Normalize(mdText);
  }

  /** Front matter written with Windows line endings reads exactly as with Unix ones. */
  lemma CrlfIgnored(mdText: string)
    requires '\r' !in mdText
    ensures ParseSpec(ToCrlf(mdText)) == ParseSpec(mdText)
  {
    StripBomCrlf(mdText);
    CrlfRoundTrip(StripBom(mdText));
    assert '\r' !in StripBom(mdText) by {
      if mdText != [] && mdText[0] == Bom {
        assert StripBom(mdText) == mdText[1..];
      }
    }
    ReplaceCrlfNoCr(StripBom(mdText));
    assert Normalize(ToCrlf(mdText)) == Normalize(mdText);
  }

  lemma StripBomCrlf(t: string)
    ensures StripBom(ToCrlf(t)) == ToCrlf(StripBom(t))
  {
    if t != [] {
      var w := ToCrlf(t);
      if t[0] == '\n' {
        assert w[0] == '\r';
      } else {
        assert w == [t[0]] + ToCrlf(t[1..]);
        if t[0] == Bom {
          assert w[1..] == ToCrlf(t[1..]);
        }
      }
    }
  }

  /** A `key: value` line (after its trailing blanks are cut) is seen as that key and its trimmed value, and as no item. */
  lemma KeyLineView(rawLine: string, key: string, rest: string)
    requires IsKeyLine(TrimEnd(rawLine), key, rest)
    ensures View(rawLine) == LineView(None, Some((key, Trim(rest))))
  {
    NotItem(TrimEnd(rawLine), key, rest);
    MatchKeyLineComplete(TrimEnd(rawLine), key, rest);
  }

  /** A bare `key:` header line is a key line with an empty value, which starts a list. */
  lemma BareKeyLine(key: string)
    requires key != [] && forall i :: 0 <= i < |key| ==> IsKeyChar(key[i])
    ensures IsKeyLine(TrimEnd(key + ":"), key, "")
    ensures View(key + ":") == LineView(None, Some((key, "")))
  {
    BareKeyShape(key);
    KeyLineView(key + ":", key, "");
  }

  lemma BareKeyShape(key: string)
    requires key != [] && forall i :: 0 <= i < |key| ==> IsKeyChar(key[i])
    ensures IsKeyLine(TrimEnd(key + ":"), key, "")
  {
    var line := key + ":";
    ColonNotTrimmed(line);
    assert line == key + [':'] + "";
    assert KeyColon(line, key, "");
    assert TrimStart("") == "";
  }

  lemma ColonNotTrimmed(line: string)
    requires line != [] && line[|line| - 1] == ':'
    ensures TrimEnd(line) == line
  {
  }

  /**
   * A `key: value` line sets the key to its value, replacing whatever it held, and makes it
   * the key later list items append to.
   */
  lemma KeyLineSets(st: State, rawLine: string, key: string, rest: string)
    requires IsKeyLine(TrimEnd(rawLine), key, rest)
    ensures Step(st, View(rawLine)) == State(st.data[key := ValueOf(Trim(rest))], Some(key))
  {
    KeyLineView(rawLine, key, rest);
  }

  /** A key line is never taken for a list item. */
  lemma NotItem(line: string, key: string, rest: string)
    requires KeyColon(line, key, rest)
    ensures ItemOf(line) == None
  {
    assert |line| >= 2 && !IsSpace(line[0]) && !IsSpace(line[1]) by {
      assert line[0] == key[0];
      if |key| > 1 {
        assert line[1] == key[1];
      } else {
        assert line[1] == ':';
      }
    }
    NoItemAfterTwoNonBlanks(line);
  }

  /** A line whose first two characters are not blank does not start with `- ` once trimmed. */
  lemma NoItemAfterTwoNonBlanks(line: string)
    requires |line| >= 2 && !IsSpace(line[0]) && !IsSpace(line[1])
    ensures ItemOf(line) == None
  {
    assert TrimStart(line) == line;
    var t := TrimEnd(line);
    TrimEndCutsSpace(line);
    assert |t| >= 2;
    assert t[1] == line[1];
    assert !StartsWith(t, "- ");
  }


  /** An item line never matches the key pattern. */
  lemma ItemNotKey(line: string)
    requires ItemOf(line).Some?
    ensures MatchKeyLine(line).None?
  {
    if IsSpace(line[0]) {
      SpaceNotKeyChar(line[0]);
      NoKeyAtStart(line);
    } else {
      ItemStart(line);
      DashSpaceNotKey(line);
    }
  }

  lemma SpaceNotKeyChar(c: char)
    requires IsSpace(c)
    ensures !IsKeyChar(c)
  {
  }

  /** A line that does not start with a key character does not match. */
  lemma NoKeyAtStart(line: string)
    requires |line| >= 1 && !IsKeyChar(line[0])
    ensures MatchKeyLine(line).None?
  {
  }

  /** An item line without leading blanks starts with `- `. */
  lemma ItemStart(line: string)
    requires ItemOf(line).Some? && !IsSpace(line[0])
    ensures |line| >= 2 && line[0] == '-' && line[1] == ' '
  {
    assert TrimStart(line) == line;
    var t := TrimEnd(line);
    assert t[..2] == "- ";
    TrimEndCutsSpace(line);
  }

  /** The key run of `- ...` ends at the blank, which is no colon. */
  lemma DashSpaceNotKey(line: string)
    requires |line| >= 2 && line[0] == '-' && line[1] == ' '
    ensures MatchKeyLine(line).None?
  {
    assert line[1..][0] == ' ';
  }

  /** A line is never both a list item and a key line. */
  predicate Exclusive(v: LineView) {
    v.item.Some? ==> v.entry.None?
  }

  lemma ViewExclusive(rawLine: string)
    ensures Exclusive(View(rawLine))
  {
    if ItemOf(TrimEnd(rawLine)).Some? {
      ItemNotKey(TrimEnd(rawLine));
    }
  }

  /** A `- item` line before any key line is ignored. */
  lemma OrphanItemIgnored(st: State, rawLine: string)
    requires st.key.None? && View(rawLine).item.Some?
    ensures Step(st, View(rawLine)) == st
  {
    ViewExclusive(rawLine);
  }

  /**
   * `- item` lines after a key append their texts, in order, to that key's list, turning a
   * string value into a list; no other key changes and the key stays current.
   */
  lemma ItemsCollect(prefix: seq<LineView>, items: seq<LineView>, texts: seq<string>, k: string)
    requires Run(prefix).key == Some(k)
    requires |items| == |texts| > 0
    requires forall i :: 0 <= i < |items| ==> items[i].item == Some(texts[i])
    ensures Run(prefix + items).key == Some(k)
    ensures Run(prefix + items).data == Run(prefix).data[k := List(ItemsAt(Run(prefix).data, k) + texts)]
  {
    RunAppend(prefix, items);
    ItemsFrom(Run(prefix), items, texts, k);
  }

  /** The state after `views`, read first to last from `st`. */
  function RunFrom(st: State, views: seq<LineView>): State {
    if views == [] then st else Step(RunFrom(st, views[..|views| - 1]), views[|views| - 1])
  }

  /** Reading `prefix + rest` is reading `rest` from the state `prefix` leaves. */
  lemma {:induction false} RunAppend(prefix: seq<LineView>, rest: seq<LineView>)
    ensures Run(prefix + rest) == RunFrom(Run(prefix), rest)
  {
    if rest == [] {
      assert prefix + rest == prefix;
    } else {
      var n := |rest|;
      RunAppend(prefix, rest[..n - 1]);
      var all := prefix + rest;
      assert all[..|all| - 1] == prefix + rest[..n - 1];
      assert all[|all| - 1] == rest[n - 1];
      assert Run(all) == Step(Run(prefix + rest[..n - 1]), rest[n - 1]);
    }
  }

  lemma {:induction false} ItemsFrom(st: State, items: seq<LineView>, texts: seq<string>, k: string)
    requires st.key == Some(k)
    requires |items| == |texts| > 0
    requires forall i :: 0 <= i < |items| ==> items[i].item == Some(texts[i])
    ensures RunFrom(st, items) == State(st.data[k := List(ItemsAt(st.data, k) + texts)], Some(k))
    decreases |items|
  {
    var n := |items|;
    if n == 1 {
      assert items[..0] == [];
      ItemStep(st, items[0], k, texts[0]);
      assert texts == [texts[0]];
    } else {
      ItemsFrom(st, items[..n - 1], texts[..n - 1], k);
      var a := ItemsAt(st.data, k);
      var mid := State(st.data[k := List(a + texts[..n - 1])], Some(k));
      ItemStep(mid, items[n - 1], k, texts[n - 1]);
      assert (a + texts[..n - 1]) + [texts[n - 1]] == a + texts;
    }
  }

  /** One `- item` line after key `k` appends its text to the list `k` holds. */
  lemma ItemStep(st: State, v: LineView, k: string, text: string)
    requires st.key == Some(k) && v.item == Some(text)
    ensures Step(st, v) == State(st.data[k := List(ItemsAt(st.data, k) + [text])], Some(k))
  {
  }

  /** The keys that key lines among `views` name. */
  function EntryKeys(views: seq<LineView>): set<string> {
    if views == [] then {}
    else
      var v := views[|views| - 1];
      EntryKeys(views[..|views| - 1]) + (if v.entry.Some? then {v.entry.value.0} else {})
  }

  /** The data holds exactly the keys that key lines name, and the current key is one of them. */
  lemma {:induction false} DeclaredKeys(views: seq<LineView>)
    requires forall i :: 0 <= i < |views| ==> Exclusive(views[i])
    ensures Run(views).data.Keys == EntryKeys(views)
    ensures Run(views).key.Some? ==> Run(views).key.value in EntryKeys(views)
  {
    if views != [] {
      var p := views[..|views| - 1];
      DeclaredKeys(p);
      assert Exclusive(views[|views| - 1]);
    }
  }

  /** Every line read through `View` satisfies the condition `DeclaredKeys` needs. */
  lemma ViewsExclusive(lines: seq<string>)
    ensures forall i :: 0 <= i < |Views(lines)| ==> Exclusive(Views(lines)[i])
  {
    forall i | 0 <= i < |lines| ensures Exclusive(Views(lines)[i]) {
      ViewExclusive(lines[i]);
    }
  }
}

module FrontmatterExample {
  import opened Wrappers
  import opened Text
  import opened Frontmatter

  const Sample: seq<string> := ["title: Test Project", "tags:", "- a", "- b"]

  lemma TitleLine()
    ensures View("title: Test Project") == LineView(None, Some(("title", "Test Project")))
  {
    TitleTrimmed();
    TitleSplit();
    TitleRest();
    KeyLineView("title: Test Project", "title", " Test Project");
  }

  lemma TitleTrimmed()
    ensures TrimEnd("title: Test Project") == "title: Test Project"
  {
  }

  lemma TitleSplit()
    ensures "title: Test Project" == "title" + [':'] + " Test Project"
  {
  }

  lemma TitleRest()
    ensures TrimStart(" Test Project") == "Test Project" && Trim(" Test Project") == "Test Project"
  {
    assert TrimStart(" Test Project") == "Test Project";
    assert TrimEnd("Test Project") == "Test Project";
  }

  lemma ItemLine(x: char)
    requires !IsSpace(x)
    ensures View(['-', ' ', x]) == LineView(Some([x]), None)
  {
    var line := ['-', ' ', x];
    assert TrimEnd(line) == line;
    assert TrimStart(line) == line;
    assert line[2..] == [x];
    assert TrimStart([x]) == [x] && TrimEnd([x]) == [x];
    ViewExclusive(line);
  }

  const TitleView := LineView(None, Some(("title", "Test Project")))
  const TagsView := LineView(None, Some(("tags", "")))

  lemma SampleViews()
    ensures Views(Sample) == [TitleView, TagsView, LineView(Some("a"), None), LineView(Some("b"), None)]
  {
    SampleView0();
    SampleView1();
    SampleView2();
    SampleView3();
    ViewsOfFour(Sample, TitleView, TagsView, LineView(Some("a"), None), LineView(Some("b"), None));
  }

  lemma SampleView0()
    ensures View(Sample[0]) == TitleView
  {
    assert Sample[0] == "title: Test Project";
    TitleLine();
  }

  lemma SampleView1()
    ensures View(Sample[1]) == TagsView
  {
    assert Sample[1] == "tags" + ":";
    BareKeyLine("tags");
  }

  lemma SampleView2()
    ensures View(Sample[2]) == LineView(Some("a"), None)
  {
    assert Sample[2] == ['-', ' ', 'a'];
    ItemLine('a');
  }

  lemma SampleView3()
    ensures View(Sample[3]) == LineView(Some("b"), None)
  {
    assert Sample[3] == ['-', ' ', 'b'];
    ItemLine('b');
  }

  lemma ViewsOfFour(lines: seq<string>, v0: LineView, v1: LineView, v2: LineView, v3: LineView)
    requires |lines| == 4
    requires View(lines[0]) == v0 && View(lines[1]) == v1 && View(lines[2]) == v2 && View(lines[3]) == v3
    ensures Views(lines) == [v0, v1, v2, v3]
  {
  }

  lemma TitleValue()
    ensures ValueOf("Test Project") == Scalar("Test Project")
  {
    assert StripQuotes("Test Project", '"') == "Test Project";
    assert StripQuotes("Test Project", '\'') == "Test Project";
  }

  const SampleViewList := [TitleView, TagsView, LineView(Some("a"), None), LineView(Some("b"), None)]

  lemma RunSample()
    ensures Run(SampleViewList).data == map["title" := Scalar("Test Project"), "tags" := List(["a", "b"])]
  {
    var vs := SampleViewList;
    var title := Scalar("Test Project");
    var s1 := State(map["title" := title], Some("title"));
    var s2 := State(map["title" := title, "tags" := List([])], Some("tags"));
    var s3 := State(map["title" := title, "tags" := List(["a"])], Some("tags"));
    var s4 := State(map["title" := title, "tags" := List(["a", "b"])], Some("tags"));
    assert vs[..0] == [];
    StepTitle();
    RunStep(vs, 0, Initial, s1);
    StepTags(s1);
    RunStep(vs, 1, s1, s2);
    StepItem(s2, "a", []);
    assert [] + ["a"] == ["a"];
    assert s2.data["tags" := List(["a"])] == s3.data;
    RunStep(vs, 2, s2, s3);
    StepItem(s3, "b", ["a"]);
    assert ["a"] + ["b"] == ["a", "b"];
    assert s3.data["tags" := List(["a", "b"])] == s4.data;
    RunStep(vs, 3, s3, s4);
    assert vs[..4] == vs;
  }

  lemma RunStep(vs: seq<LineView>, k: nat, before: State, after: State)
    requires k < |vs| && Run(vs[..k]) == before && Step(before, vs[k]) == after
    ensures Run(vs[..k + 1]) == after
  {
    RunSnoc(vs, k);
  }

  lemma StepTitle()
    ensures Step(Initial, TitleView) == State(map["title" := Scalar("Test Project")], Some("title"))
  {
    TitleValue();
  }

  lemma StepTags(st: State)
    ensures Step(st, TagsView) == State(st.data["tags" := List([])], Some("tags"))
  {
  }

  lemma StepItem(st: State, x: string, before: seq<string>)
    requires st.key == Some("tags") && "tags" in st.data && st.data["tags"] == List(before)
    ensures Step(st, LineView(Some(x), None)) == State(st.data["tags" := List(before + [x])], Some("tags"))
  {
  }

  /** `title: Test Project`, `tags:`, `- a`, `- b` read as a title and a two-item list. */
  lemma SampleData()
    ensures Run(Views(Sample)).data == map["title" := Scalar("Test Project"), "tags" := List(["a", "b"])]
  {
    SampleViews();
    RunSample();
    assert Views(Sample) == SampleViewList;
  }

  /** The whole description file of the worked example: `---`, the sample lines, `---` and `Body`. */
  const Document: string := "---\n" + Join(Sample, '\n') + "\n---\nBody"

  /** The worked example end to end: the file gives the title, the two tags and the body. */
  lemma DocumentParsed()
    ensures ParseSpec(Document) == Parsed(map["title" := Scalar("Test Project"), "tags" := List(["a", "b"])], "Body")
  {
    DocumentNormal();
    DocumentSplit();
    SampleData();
  }

  lemma DocumentSplit()
    ensures ParseNormalized(Document) == Parsed(Run(Views(Sample)).data, "Body")
  {
    SampleLines();
    DocumentShape();
    DelimitedLines(Sample, "\nBody");
    BodyTrimmed();
  }

  lemma DocumentShape()
    ensures Document == "---" + "\n" + Join(Sample, '\n') + "\n---" + "\nBody"
  {
  }

  /** The header of the example is `title: Test Project`, `tags:`, `- a` and `- b` on four lines. */
  lemma SampleJoin()
    ensures Join(Sample, '\n') == "title: Test Project\ntags:\n- a\n- b"
  {
    assert Sample[3..] == ["- b"];
    assert Sample[2..][1..] == Sample[3..];
    assert Sample[1..][1..] == Sample[2..];
  }

  lemma DocumentNormal()
    ensures Normalize(Document) == Document
  {
    SampleLines();
    JoinExcludes(Sample, '\n', '\r');
    var j := Join(Sample, '\n');
    assert Document == "---\n" + j + "\n---\nBody";
    assert Document[0] == '-';
    assert '\r' !in Document by {
      assert '\r' !in "---\n" && '\r' !in "\n---\nBody";
    }
    ReplaceCrlfNoCr(Document);
  }

  lemma SampleLines()
    ensures forall i :: 0 <= i < |Sample| ==> '\n' !in Sample[i] && '\r' !in Sample[i] && !StartsWith(Sample[i], "---")
    ensures Sample[0] != [] && !IsSpace(Sample[0][0])
    ensures Sample[|Sample| - 1] != [] && !IsSpace(Sample[|Sample| - 1][|Sample[|Sample| - 1]| - 1])
  {
    assert Sample[0] == "title: Test Project" && Sample[0][0] == 't';
    assert Sample[1] == "tags:" && Sample[1][0] == 't';
    assert Sample[2] == "- a" && Sample[2][1] == ' ';
    assert Sample[3] == "- b" && Sample[3][1] == ' ' && Sample[3][2] == 'b';
  }

  lemma BodyTrimmed()
    ensures Trim("\nBody") == "Body"
  {
    assert "\nBody"[1..] == "Body";
    TrimNoSpace("Body");
  }
}
