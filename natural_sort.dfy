/**
 * The comparator `naturalSort` of the gallery indexer: `localeCompare` with numeric collation
 * and base sensitivity. Over ASCII it orders names token by token, where a run of digits is
 * one token compared by its numeric value, letters compare without regard to case, and
 * punctuation sorts before digits, which sort before letters.
 */
module NaturalSort {
  import opened Text
  import Seqs

  /** A digit run with its value, or one other (case-folded) character. */
  datatype Token = Num(value: nat) | Sym(c: char)

  /** Length of the run of digits at the start of `s`. */
  function DigitRun(s: string): (n: nat)
    ensures n <= |s|
    ensures forall i :: 0 <= i < n ==> IsDigit(s[i])
    ensures n == |s| || !IsDigit(s[n])
  {
    if s != [] && IsDigit(s[0]) then 1 + DigitRun(s[1..]) else 0
  }

  /** The number a string of decimal digits denotes. */
  function DigitsValue(d: string): nat
    requires forall i :: 0 <= i < |d| ==> IsDigit(d[i])
  {
    if d == [] then 0
    else
      assert IsDigit(d[|d| - 1]);
      DigitsValue(d[..|d| - 1]) * 10 + (d[|d| - 1] as int - '0' as int)
  }

  function Tokens(s: string): seq<Token>
    decreases |s|
  {
    if s == [] then []
    else if IsDigit(s[0]) then
      var n := DigitRun(s);
      [Num(DigitsValue(s[..n]))] + Tokens(s[n..])
    else [Sym(LowerChar(s[0]))] + Tokens(s[1..])
  }

  /** Collation class: punctuation and symbols, then digits, then letters. */
  function Rank(t: Token): nat {
    match t
    case Num(_) => 1
    case Sym(c) => if IsAsciiLetter(c) then 2 else 0
  }

  function Weight(t: Token): int {
    match t
    case Num(v) => v
    case Sym(c) => c as int
  }

  predicate TokenLess(a: Token, b: Token) {
    Rank(a) < Rank(b) || (Rank(a) == Rank(b) && Weight(a) < Weight(b))
  }

  predicate TokensLe(a: seq<Token>, b: seq<Token>) {
    a == [] || (b != [] && (TokenLess(a[0], b[0]) || (a[0] == b[0] && TokensLe(a[1..], b[1..]))))
  }

  /** `naturalSort(x, y) <= 0`. */
  predicate NaturalLe(x: string, y: string) {
    TokensLe(Tokens(x), Tokens(y))
  }

  /** Two tokens neither of which sorts before the other are the same token. */
  lemma TokenTrichotomy(a: Token, b: Token)
    ensures TokenLess(a, b) || TokenLess(b, a) || a == b
  {
  }

  lemma {:induction false} TokensLeTotal(a: seq<Token>, b: seq<Token>)
    ensures TokensLe(a, b) || TokensLe(b, a)
  {
    if a != [] && b != [] {
      TokenTrichotomy(a[0], b[0]);
      TokensLeTotal(a[1..], b[1..]);
    }
  }

  lemma {:induction false} TokensLeTransitive(a: seq<Token>, b: seq<Token>, c: seq<Token>)
    requires TokensLe(a, b) && TokensLe(b, c)
    ensures TokensLe(a, c)
  {
    if a != [] && a[0] == b[0] && b[0] == c[0] {
      TokensLeTransitive(a[1..], b[1..], c[1..]);
    }
  }

  /** The comparator is a total preorder, so sorting with it gives an ordered list. */
  lemma NaturalLeIsTotalPreorder()
    ensures Seqs.Total(NaturalLe) && Seqs.Transitive(NaturalLe)
  {
    forall x, y ensures NaturalLe(x, y) || NaturalLe(y, x) {
      TokensLeTotal(Tokens(x), Tokens(y));
    }
    forall x, y, z | NaturalLe(x, y) && NaturalLe(y, z) ensures NaturalLe(x, z) {
      TokensLeTransitive(Tokens(x), Tokens(y), Tokens(z));
    }
  }

  /** The order ignores letter case: a name compares exactly as its lower-cased form. */
  lemma {:induction false} TokensIgnoreCase(s: string)
    ensures Tokens(ToLower(s)) == Tokens(s)
    decreases |s|
  {
    if s != [] {
      var l := ToLower(s);
      assert l[0] == LowerChar(s[0]);
      if IsDigit(s[0]) {
        var n := DigitRun(s);
        DigitRunIgnoresCase(s);
        assert l[..n] == s[..n];
        assert l[n..] == ToLower(s[n..]);
        TokensIgnoreCase(s[n..]);
      } else {
        assert l[1..] == ToLower(s[1..]);
        TokensIgnoreCase(s[1..]);
        assert LowerChar(LowerChar(s[0])) == LowerChar(s[0]);
      }
    }
  }

  lemma {:induction false} DigitRunIgnoresCase(s: string)
    ensures DigitRun(ToLower(s)) == DigitRun(s)
  {
    if s != [] {
      assert ToLower(s)[1..] == ToLower(s[1..]);
      DigitRunIgnoresCase(s[1..]);
    }
  }

  lemma NaturalLeIgnoresCase(x: string, y: string)
    ensures NaturalLe(ToLower(x), y) == NaturalLe(x, y)
    ensures NaturalLe(x, ToLower(y)) == NaturalLe(x, y)
  {
    TokensIgnoreCase(x);
    TokensIgnoreCase(y);
  }

  /** A character that is not a digit is a token of its own. */
  lemma TokensCons(c: char, rest: string)
    requires !IsDigit(c)
    ensures Tokens([c] + rest) == [Sym(LowerChar(c))] + Tokens(rest)
  {
    assert ([c] + rest)[1..] == rest;
  }

  /** A whole run of digits is a single numeric token. */
  lemma TokensRun(d: string, rest: string)
    requires d != [] && forall i :: 0 <= i < |d| ==> IsDigit(d[i])
    requires rest == [] || !IsDigit(rest[0])
    ensures Tokens(d + rest) == [Num(DigitsValue(d))] + Tokens(rest)
  {
    var s := d + rest;
    DigitRunOf(d, rest);
    assert s[..|d|] == d && s[|d|..] == rest;
  }

  lemma {:induction false} DigitRunOf(d: string, rest: string)
    requires forall i :: 0 <= i < |d| ==> IsDigit(d[i])
    requires rest == [] || !IsDigit(rest[0])
    ensures DigitRun(d + rest) == |d|
  {
    if d != [] {
      assert (d + rest)[1..] == d[1..] + rest;
      DigitRunOf(d[1..], rest);
    } else {
      assert d + rest == rest;
    }
  }

  const ImgPrefix: seq<Token> := [Sym('i'), Sym('m'), Sym('g')]
  const JpgSuffix: seq<Token> := [Sym('.'), Sym('j'), Sym('p'), Sym('g')]

  /** The prefix `img` gives three letter tokens, whatever follows it. */
  lemma ImgPrefixTokens(x: string)
    ensures Tokens("img" + x) == ImgPrefix + Tokens(x)
  {
    TokensCons('g', x);
    TokensCons('m', "g" + x);
    TokensCons('i', "mg" + x);
    assert ['g'] + x == "g" + x;
    assert ['m'] + ("g" + x) == "mg" + x;
    assert ['i'] + ("mg" + x) == "img" + x;
  }

  lemma JpgTokens()
    ensures Tokens(".jpg") == JpgSuffix
  {
    TokensCons('g', "");
    assert "g" == ['g'] + "";
    TokensCons('p', "g");
    TokensCons('j', "pg");
    TokensCons('.', "jpg");
  }

  /** The tokens of `img<digits>.jpg`: the digits form one numeric token. */
  lemma ImgTokens(digits: string)
    requires digits != [] && forall i :: 0 <= i < |digits| ==> IsDigit(digits[i])
    ensures Tokens("img" + (digits + ".jpg")) == ImgPrefix + ([Num(DigitsValue(digits))] + JpgSuffix)
  {
    JpgTokens();
    TokensRun(digits, ".jpg");
    ImgPrefixTokens(digits + ".jpg");
  }

  lemma DigitsValues()
    ensures DigitsValue("1") == 1 && DigitsValue("2") == 2 && DigitsValue("10") == 10
  {
    assert "10"[..1] == "1";
  }

  /** A common prefix does not change the comparison. */
  lemma {:induction false} CommonPrefix(p: seq<Token>, x: seq<Token>, y: seq<Token>)
    ensures TokensLe(p + x, p + y) == TokensLe(x, y)
  {
    if p == [] {
      assert p + x == x && p + y == y;
    } else {
      assert (p + x)[0] == p[0] == (p + y)[0];
      assert (p + x)[1..] == p[1..] + x && (p + y)[1..] == p[1..] + y;
      CommonPrefix(p[1..], x, y);
    }
  }

  lemma ImgOrder(a: nat, b: nat)
    requires a < b
    ensures TokensLe(ImgPrefix + ([Num(a)] + JpgSuffix), ImgPrefix + ([Num(b)] + JpgSuffix))
    ensures !TokensLe(ImgPrefix + ([Num(b)] + JpgSuffix), ImgPrefix + ([Num(a)] + JpgSuffix))
  {
    CommonPrefix(ImgPrefix, [Num(a)] + JpgSuffix, [Num(b)] + JpgSuffix);
    CommonPrefix(ImgPrefix, [Num(b)] + JpgSuffix, [Num(a)] + JpgSuffix);
  }

  lemma ImgNames()
    ensures NaturalLe("img1.jpg", "img2.jpg") && !NaturalLe("img2.jpg", "img1.jpg")
    ensures NaturalLe("img1.jpg", "img10.jpg") && !NaturalLe("img10.jpg", "img1.jpg")
    ensures NaturalLe("img2.jpg", "img10.jpg") && !NaturalLe("img10.jpg", "img2.jpg")
  {
    ImgTokens("1");
    ImgTokens("2");
    ImgTokens("10");
    DigitsValues();
    assert "img" + ("1" + ".jpg") == "img1.jpg";
    assert "img" + ("2" + ".jpg") == "img2.jpg";
    assert "img" + ("10" + ".jpg") == "img10.jpg";
    ImgOrder(1, 2);
    ImgOrder(1, 10);
    ImgOrder(2, 10);
  }

  /** Digit runs compare by value: img1 < img2 < img10, where plain string order puts img10 second. */
  lemma NumericOrderExample()
    ensures Seqs.SortBy(NaturalLe, ["img2.jpg", "img10.jpg", "img1.jpg"]) == ["img1.jpg", "img2.jpg", "img10.jpg"]
  {
    ImgNames();
    Seqs.SortThree(NaturalLe, "img1.jpg", "img2.jpg", "img10.jpg");
  }
}
