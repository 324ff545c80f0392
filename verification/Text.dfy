/** core/vca/string: replacement, splitting and trimming, and the tokenizer built from them. Whether a text is a
    number is a parameter. */
module Texts {
  type Char = c: int | 0 <= c < 0x1_0000_0000
  type String = seq<Char>

  const SPACE: Char := 0x20
  const START_OF_HEADING: Char := 0x1
  const MAX_WORD_LENGTH := 32

  predicate IsSpecial(c: Char) {
    c in {0x3001, 0xff1f, 0xff09, 0x2026, 0xff08, 0x3002, 0xff0c, 0x9, 0x3e, 0x3c, 0x2019, 0x27, 0x22, 0x7c, 0x3d,
          0x201d, 0x2b, 0x201c, 0xb7, 0x2a, 0x2018, 0x26, 0x2f, 0x5e, 0x25, 0x24, 0x23, 0x40, 0x60, 0x300b, 0x7e,
          0x300a, 0x7d, 0x7b, 0x29, 0x28, 0x3a, 0x3b, 0x21, 0x3f, 0x5d, 0x2e, 0x5b, 0x2c, 0x5c, 0x2d, 0x5f}
  }

  predicate IsEndOfLine(c: Char) {
    c in {0xa, 0xb, 0xc, 0xd, 0x85, 0x2028, 0x2029}
  }

  predicate IsTrimmed(c: Char) {
    c in {0x2000, 0x2001, 0x2002, 0x2003, 0x2004, 0x2005, 0x2006, 0x2007, 0x2009, 0x200a, 0x2028, 0x2029, 0x202f,
          0x205f, 0x3000}
  }

  predicate IsCjk(c: Char) {
    0x4e00 <= c <= 0x9fff || 0x3040 <= c <= 0x30ff || 0xac00 <= c <= 0xd7a3
  }

  /** The delimiters of split are a string of two characters: U+0001 and the one that is meant. */
  predicate IsDelimiter(c: Char) {
    c == START_OF_HEADING || c == SPACE
  }

  /** Where a word that is not CJK ends. */
  predicate IsBreak(c: Char) {
    IsSpecial(c) || IsEndOfLine(c) || IsCjk(c) || IsDelimiter(c)
  }

  lemma Classes(c: Char)
    ensures IsCjk(c) ==> !IsSpecial(c) && !IsEndOfLine(c) && !IsDelimiter(c)
    ensures IsDelimiter(c) ==> !IsSpecial(c) && !IsEndOfLine(c) && !IsCjk(c)
  {
  }

  /** Of ASCII, a word ends at all punctuation, at white space and at U+0001, and at no letter, digit or other control
      character; beyond ASCII at some quotation marks, brackets, stops and ends of lines, and at CJK characters. */
  lemma BreaksExact(c: Char)
    ensures c < 0x80 ==> (IsBreak(c) <==> c == 0x1 || 0x9 <= c <= 0xd || 0x20 <= c <= 0x2f || 0x3a <= c <= 0x40
                                          || 0x5b <= c <= 0x60 || 0x7b <= c <= 0x7e)
    ensures c >= 0x80 ==> (IsBreak(c) <==> c in {0x85, 0xb7, 0x2018, 0x2019, 0x201c, 0x201d, 0x2026, 0x2028, 0x2029}
                                           || 0x3001 <= c <= 0x3002 || 0x300a <= c <= 0x300b || 0x3040 <= c <= 0x30ff
                                           || 0x4e00 <= c <= 0x9fff || 0xac00 <= c <= 0xd7a3
                                           || c in {0xff08, 0xff09, 0xff0c, 0xff1f})
  {
  }

  // ---- what the parts compute ----

  function Replaced(s: String, chars: Char -> bool, with: Char): (r: String)
    ensures |r| == |s| && forall i :: 0 <= i < |s| ==> r[i] == if chars(s[i]) then with else s[i]
  {
    seq(|s|, i requires 0 <= i < |s| => if chars(s[i]) then with else s[i])
  }

  /** A delimiter begins a new piece, another character goes to the last. */
  function WithChar(pieces: seq<String>, c: Char, isDelimiter: bool): (r: seq<String>)
    requires pieces != []
    ensures r != []
  {
    if isDelimiter then pieces + [[]] else pieces[..|pieces| - 1] + [pieces[|pieces| - 1] + [c]]
  }

  /** All pieces between delimiters, the empty ones too. */
  function Pieces(s: String, delimiter: Char -> bool): (r: seq<String>)
    ensures r != []
  {
    if s == [] then [[]]
    else WithChar(Pieces(s[..|s| - 1], delimiter), s[|s| - 1], delimiter(s[|s| - 1]))
  }

  function NonEmpty(ss: seq<String>): seq<String> {
    if ss == [] then []
    else if ss[|ss| - 1] == [] then NonEmpty(ss[..|ss| - 1])
    else NonEmpty(ss[..|ss| - 1]) + [ss[|ss| - 1]]
  }

  function TrimLeft(s: String): String {
    if s != [] && IsTrimmed(s[0]) then TrimLeft(s[1..]) else s
  }

  function TrimRight(s: String): String {
    if s != [] && IsTrimmed(s[|s| - 1]) then TrimRight(s[..|s| - 1]) else s
  }

  function Trim(s: String): String {
    TrimRight(TrimLeft(s))
  }

  // ---- the tokens ----

  function CjkWords(s: String): seq<String> {
    if s == [] then []
    else if IsCjk(s[|s| - 1]) then CjkWords(s[..|s| - 1]) + [[START_OF_HEADING, s[|s| - 1]]]
    else CjkWords(s[..|s| - 1])
  }

  predicate Kept(t: String, numeric: String -> bool) {
    1 < |t| <= MAX_WORD_LENGTH && !numeric(t)
  }

  function KeptWords(ts: seq<String>, numeric: String -> bool): seq<String> {
    if ts == [] then []
    else
      var t := Trim(ts[|ts| - 1]);
      if Kept(t, numeric) then KeptWords(ts[..|ts| - 1], numeric) + [t] else KeptWords(ts[..|ts| - 1], numeric)
  }

  /** The runs between breaks, trimmed, that are neither too short nor too long nor numbers. */
  function OtherWords(s: String, numeric: String -> bool): seq<String> {
    KeptWords(NonEmpty(Pieces(s, IsBreak)), numeric)
  }

  function Tokens(s: String, numeric: String -> bool): seq<String> {
    CjkWords(s) + OtherWords(s, numeric)
  }

  // ---- the methods ----

  method ReplaceAll(str: String, chars: Char -> bool, with: Char) returns (r: String)
    ensures r == Replaced(str, chars, with)
  {
    r := str;
    var i := 0;
    while i < |r|
      invariant 0 <= i <= |r| == |str|
      invariant forall k :: 0 <= k < i ==> r[k] == if chars(str[k]) then with else str[k]
      invariant forall k :: i <= k < |r| ==> r[k] == str[k]
    {
      if chars(r[i]) {
        r := r[i := with];
      }
      i := i + 1;
    }
  }

  method Split(str: String, delimiter: Char -> bool) returns (r: seq<String>)
    ensures r == NonEmpty(Pieces(str, delimiter))
  {
    var pieces: seq<String> := [[]];
    var i := 0;
    while i < |str|
      invariant 0 <= i <= |str| && pieces == Pieces(str[..i], delimiter)
    {
      assert str[..i + 1][..i] == str[..i];
      if delimiter(str[i]) {
        pieces := pieces + [[]];
      } else {
        pieces := pieces[..|pieces| - 1] + [pieces[|pieces| - 1] + [str[i]]];
      }
      i := i + 1;
    }
    assert str[..|str|] == str;
    r := [];
    i := 0;
    while i < |pieces|
      invariant 0 <= i <= |pieces| && r == NonEmpty(pieces[..i])
    {
      assert pieces[..i + 1][..i] == pieces[..i];
      if pieces[i] != [] {
        r := r + [pieces[i]];
      }
      i := i + 1;
    }
    assert pieces[..|pieces|] == pieces;
  }

  method TrimString(str: String) returns (r: String)
    ensures r == Trim(str)
  {
    r := str;
    while r != [] && IsTrimmed(r[0])
      invariant TrimLeft(r) == TrimLeft(str)
    {
      r := r[1..];
    }
    while r != [] && IsTrimmed(r[|r| - 1])
      invariant TrimRight(r) == Trim(str)
    {
      r := r[..|r| - 1];
    }
  }

  /** Replacing in turn the special characters, the ends of lines and, by the loop that lists them, the CJK
      characters. */
  function Blanked(s: String): (r: String)
    ensures |r| == |s|
    ensures forall i :: 0 <= i < |s| ==>
              r[i] == if IsSpecial(s[i]) || IsEndOfLine(s[i]) || IsCjk(s[i]) then SPACE else s[i]
  {
    seq(|s|, i requires 0 <= i < |s| => if IsSpecial(s[i]) || IsEndOfLine(s[i]) || IsCjk(s[i]) then SPACE else s[i])
  }

  lemma {:induction false} BlankedPieces(s: String)
    ensures Pieces(Blanked(s), IsDelimiter) == Pieces(s, IsBreak)
    decreases |s|
  {
    if s != [] {
      assert Blanked(s)[..|s| - 1] == Blanked(s[..|s| - 1]);
      BlankedPieces(s[..|s| - 1]);
      Classes(s[|s| - 1]);
    }
  }

  /** The words and the line the CJK loop leaves. */
  method TakeCjk(str: String) returns (words: seq<String>, r: String)
    ensures words == CjkWords(str) && r == Replaced(str, IsCjk, SPACE)
  {
    words, r := [], str;
    var i := 0;
    while i < |r|
      invariant 0 <= i <= |r| == |str| && words == CjkWords(str[..i])
      invariant forall k :: 0 <= k < i ==> r[k] == if IsCjk(str[k]) then SPACE else str[k]
      invariant forall k :: i <= k < |r| ==> r[k] == str[k]
    {
      assert str[..i + 1][..i] == str[..i];
      if IsCjk(r[i]) {
        words := words + [[START_OF_HEADING, r[i]]];
        r := r[i := SPACE];
      }
      i := i + 1;
    }
    assert str[..|str|] == str;
  }

  lemma {:induction false} CleanedCjk(s: String, r: String)
    requires |r| == |s|
    requires forall i :: 0 <= i < |s| ==> r[i] == if IsSpecial(s[i]) || IsEndOfLine(s[i]) then SPACE else s[i]
    ensures CjkWords(r) == CjkWords(s)
    decreases |s|
  {
    if s != [] {
      CleanedCjk(s[..|s| - 1], r[..|s| - 1]);
      Classes(s[|s| - 1]);
    }
  }

  method Keep(tokens: seq<String>, numeric: String -> bool, cjk: seq<String>) returns (words: seq<String>)
    ensures words == cjk + KeptWords(tokens, numeric)
  {
    words := cjk;
    var i := 0;
    while i < |tokens|
      invariant 0 <= i <= |tokens| && words == cjk + KeptWords(tokens[..i], numeric)
    {
      assert tokens[..i + 1][..i] == tokens[..i];
      var t := TrimString(tokens[i]);
      if 1 < |t| && |t| <= MAX_WORD_LENGTH && !numeric(t) {
        words := words + [t];
      }
      i := i + 1;
    }
    assert tokens[..|tokens|] == tokens;
  }

  method Tokenize(str: String, numeric: String -> bool) returns (words: seq<String>)
    ensures words == Tokens(str, numeric)
  {
    var line := ReplaceAll(str, IsSpecial, SPACE);
    line := ReplaceAll(line, IsEndOfLine, SPACE);
    CleanedCjk(str, line);
    words, line := TakeCjk(line);
    assert line == Blanked(str);
    BlankedPieces(str);
    var tokens := Split(line, IsDelimiter);
    words := Keep(tokens, numeric, words);
  }

  // ---- concatenation ----

  lemma WithCharJoin(a: seq<String>, b: seq<String>, c: Char, isDelimiter: bool)
    requires b != []
    ensures WithChar(a + b, c, isDelimiter) == a + WithChar(b, c, isDelimiter)
  {
    assert (a + b)[..|a + b| - 1] == a + b[..|b| - 1];
  }

  lemma PiecesSnoc(s: String, c: Char, delimiter: Char -> bool)
    ensures Pieces(s + [c], delimiter) == WithChar(Pieces(s, delimiter), c, delimiter(c))
  {
    assert (s + [c])[..|s|] == s;
  }

  lemma {:induction false} PiecesJoin(a: String, d: Char, b: String, delimiter: Char -> bool)
    requires delimiter(d)
    ensures Pieces(a + [d] + b, delimiter) == Pieces(a, delimiter) + Pieces(b, delimiter)
    decreases |b|
  {
    if b == [] {
      PiecesSnoc(a, d, delimiter);
      assert a + [d] + b == a + [d];
    } else {
      var before, c := b[..|b| - 1], b[|b| - 1];
      PiecesJoin(a, d, before, delimiter);
      PiecesSnoc(a + [d] + before, c, delimiter);
      WithCharJoin(Pieces(a, delimiter), Pieces(before, delimiter), c, delimiter(c));
      assert a + [d] + b == a + [d] + before + [c];
    }
  }

  lemma {:induction false} NonEmptyJoin(a: seq<String>, b: seq<String>)
    ensures NonEmpty(a + b) == NonEmpty(a) + NonEmpty(b)
    decreases |b|
  {
    if b == [] {
      assert a + b == a;
    } else {
      assert (a + b)[..|a + b| - 1] == a + b[..|b| - 1];
      NonEmptyJoin(a, b[..|b| - 1]);
    }
  }

  lemma {:induction false} KeptWordsJoin(a: seq<String>, b: seq<String>, numeric: String -> bool)
    ensures KeptWords(a + b, numeric) == KeptWords(a, numeric) + KeptWords(b, numeric)
    decreases |b|
  {
    if b == [] {
      assert a + b == a;
    } else {
      assert (a + b)[..|a + b| - 1] == a + b[..|b| - 1];
      KeptWordsJoin(a, b[..|b| - 1], numeric);
    }
  }

  lemma {:induction false} CjkWordsJoin(a: String, b: String)
    ensures CjkWords(a + b) == CjkWords(a) + CjkWords(b)
    decreases |b|
  {
    if b == [] {
      assert a + b == a;
    } else {
      assert (a + b)[..|a + b| - 1] == a + b[..|b| - 1];
      CjkWordsJoin(a, b[..|b| - 1]);
    }
  }

  /** No word goes over a break: with OtherWordExact this determines the words of every text. */
  lemma OtherWordsJoin(a: String, c: Char, b: String, numeric: String -> bool)
    requires IsBreak(c)
    ensures OtherWords(a + [c] + b, numeric) == OtherWords(a, numeric) + OtherWords(b, numeric)
  {
    PiecesJoin(a, c, b, IsBreak);
    NonEmptyJoin(Pieces(a, IsBreak), Pieces(b, IsBreak));
    KeptWordsJoin(NonEmpty(Pieces(a, IsBreak)), NonEmpty(Pieces(b, IsBreak)), numeric);
  }

  /** Every CJK character is a word, with U+0001 before it, and no other character is part of one. */
  lemma CjkWordsExact(a: String, c: Char, b: String)
    ensures CjkWords(a + [c] + b) == CjkWords(a) + (if IsCjk(c) then [[0x1, c]] else []) + CjkWords(b)
  {
    CjkWordsJoin(a + [c], b);
    CjkWordsJoin(a, [c]);
    assert [c][..0] == [] && CjkWords([c][..0]) == [];
  }

  lemma CjkWordsSpaced(a: String, b: String)
    ensures CjkWords(a + [SPACE] + b) == CjkWords(a) + CjkWords(b)
  {
    CjkWordsJoin(a + [SPACE], b);
    CjkWordsJoin(a, [SPACE]);
    assert CjkWords([SPACE]) == [];
  }

  lemma Regroup<T>(a: seq<T>, b: seq<T>, c: seq<T>, d: seq<T>)
    ensures (a + b) + (c + d) == a + b + c + d
  {
  }

  /** The tokens of two texts with a space between: the CJK words of both, then the other words of both. */
  lemma TokensJoin(a: String, b: String, numeric: String -> bool)
    ensures Tokens(a + [SPACE] + b, numeric)
            == CjkWords(a) + CjkWords(b) + OtherWords(a, numeric) + OtherWords(b, numeric)
  {
    CjkWordsSpaced(a, b);
    OtherWordsJoin(a, SPACE, b, numeric);
    Regroup(CjkWords(a), CjkWords(b), OtherWords(a, numeric), OtherWords(b, numeric));
  }

  // ---- what a word is ----

  predicate Unbroken(t: String) {
    forall i :: 0 <= i < |t| ==> !IsBreak(t[i])
  }

  lemma {:induction false} PiecesUnbroken(s: String)
    ensures forall k :: 0 <= k < |Pieces(s, IsBreak)| ==> Unbroken(Pieces(s, IsBreak)[k])
    decreases |s|
  {
    if s != [] {
      PiecesUnbroken(s[..|s| - 1]);
    }
  }

  lemma {:induction false} NonEmptyFrom(ss: seq<String>, t: String)
    requires t in NonEmpty(ss)
    ensures t in ss && t != []
  {
    var last := ss[|ss| - 1];
    if last == [] || t != last {
      NonEmptyFrom(ss[..|ss| - 1], t);
    }
  }

  /** Trimming leaves a middle part whose ends are not trimmed characters. */
  lemma {:induction false} TrimLeftShape(s: String)
    ensures |TrimLeft(s)| <= |s| && TrimLeft(s) == s[|s| - |TrimLeft(s)|..]
    ensures TrimLeft(s) == [] || !IsTrimmed(TrimLeft(s)[0])
    decreases |s|
  {
    if s != [] && IsTrimmed(s[0]) {
      TrimLeftShape(s[1..]);
    }
  }

  lemma {:induction false} TrimRightShape(s: String)
    ensures |TrimRight(s)| <= |s| && TrimRight(s) == s[..|TrimRight(s)|]
    ensures TrimRight(s) == [] || !IsTrimmed(TrimRight(s)[|TrimRight(s)| - 1])
    decreases |s|
  {
    if s != [] && IsTrimmed(s[|s| - 1]) {
      TrimRightShape(s[..|s| - 1]);
    }
  }

  lemma TrimTwice(s: String)
    ensures Trim(Trim(s)) == Trim(s)
    ensures Unbroken(s) ==> Unbroken(Trim(s))
  {
    TrimLeftShape(s);
    TrimRightShape(TrimLeft(s));
    TrimLeftShape(Trim(s));
    TrimRightShape(TrimLeft(Trim(s)));
  }

  predicate AllTrimmed(s: String) {
    forall i :: 0 <= i < |s| ==> IsTrimmed(s[i])
  }

  lemma {:induction false} TrimLeftExact(a: String, t: String)
    requires AllTrimmed(a) && (t == [] || !IsTrimmed(t[0]))
    ensures TrimLeft(a + t) == t
    decreases |a|
  {
    if a == [] {
      assert a + t == t;
    } else {
      assert (a + t)[1..] == a[1..] + t;
      TrimLeftExact(a[1..], t);
    }
  }

  lemma {:induction false} TrimRightExact(t: String, b: String)
    requires AllTrimmed(b) && (t == [] || !IsTrimmed(t[|t| - 1]))
    ensures TrimRight(t + b) == t
    decreases |b|
  {
    if b == [] {
      assert t + b == t;
    } else {
      assert (t + b)[..|t + b| - 1] == t + b[..|b| - 1];
      TrimRightExact(t, b[..|b| - 1]);
    }
  }

  /** What is between the trimmed characters at both ends is left, all of it. */
  lemma TrimExact(a: String, t: String, b: String)
    requires AllTrimmed(a) && AllTrimmed(b) && (t != [] ==> !IsTrimmed(t[0]) && !IsTrimmed(t[|t| - 1]))
    ensures Trim(a + t + b) == t
  {
    if t == [] {
      assert a + t + b == (a + b) + [];
      TrimLeftExact(a + b, []);
    } else {
      assert a + t + b == a + (t + b);
      TrimLeftExact(a, t + b);
      TrimRightExact(t, b);
    }
  }

  /** A run without breaks, with characters to trim around it, is a word if and only if it has 2 to 32 characters and is
      no number. */
  lemma OtherWordExact(a: String, t: String, b: String, numeric: String -> bool)
    requires AllTrimmed(a) && AllTrimmed(b) && Unbroken(a + t + b)
    requires t != [] ==> !IsTrimmed(t[0]) && !IsTrimmed(t[|t| - 1])
    ensures OtherWords(a + t + b, numeric) == if 2 <= |t| <= 32 && !numeric(t) then [t] else []
  {
    var s := a + t + b;
    TrimExact(a, t, b);
    UnbrokenPiece(s);
    OneRun(s);
    assert KeptWords([s][..0], numeric) == [];
  }

  lemma OneRun(s: String)
    ensures NonEmpty([s]) == if s == [] then [] else [s]
  {
    assert NonEmpty([s][..0]) == [];
  }

  ghost predicate IsOtherWord(w: String, numeric: String -> bool) {
    1 < |w| <= MAX_WORD_LENGTH && Unbroken(w) && Trim(w) == w && !numeric(w)
  }

  ghost predicate IsCjkWord(w: String) {
    |w| == 2 && w[0] == 0x1 && IsCjk(w[1])
  }

  lemma {:induction false} KeptWordsShape(ts: seq<String>, numeric: String -> bool, w: String)
    requires w in KeptWords(ts, numeric) && forall t :: t in ts ==> Unbroken(t)
    ensures IsOtherWord(w, numeric)
    decreases |ts|
  {
    var last := ts[|ts| - 1];
    if Kept(Trim(last), numeric) && w == Trim(last) {
      TrimTwice(last);
    } else {
      KeptWordsShape(ts[..|ts| - 1], numeric, w);
    }
  }

  /** A word that is not CJK has 2 to 32 characters, none of them special, an end of line, a space, U+0001 or CJK; it is
      trimmed and no number. */
  lemma OtherWordShape(s: String, numeric: String -> bool, w: String)
    requires w in OtherWords(s, numeric)
    ensures IsOtherWord(w, numeric)
  {
    PiecesUnbroken(s);
    forall t | t in NonEmpty(Pieces(s, IsBreak)) ensures Unbroken(t) {
      NonEmptyFrom(Pieces(s, IsBreak), t);
    }
    KeptWordsShape(NonEmpty(Pieces(s, IsBreak)), numeric, w);
  }

  lemma {:induction false} CjkWordShape(s: String, w: String)
    requires w in CjkWords(s)
    ensures IsCjkWord(w)
    decreases |s|
  {
    if !IsCjk(s[|s| - 1]) || w != [START_OF_HEADING, s[|s| - 1]] {
      CjkWordShape(s[..|s| - 1], w);
    }
  }

  // ---- a word is its own token ----

  lemma {:induction false} UnbrokenPiece(t: String)
    requires Unbroken(t)
    ensures Pieces(t, IsBreak) == [t] && CjkWords(t) == []
    decreases |t|
  {
    if t != [] {
      UnbrokenPiece(t[..|t| - 1]);
      assert t[..|t| - 1] + [t[|t| - 1]] == t;
    }
  }

  lemma OtherWordToken(w: String, numeric: String -> bool)
    requires IsOtherWord(w, numeric)
    ensures CjkWords(w) == [] && OtherWords(w, numeric) == [w]
  {
    UnbrokenPiece(w);
    assert NonEmpty([w][..0]) == [] && NonEmpty([w]) == [w];
    assert KeptWords([w][..0], numeric) == [];
  }

  lemma TwoBreaks(a: Char, b: Char)
    requires IsBreak(a) && IsBreak(b)
    ensures Pieces([a, b], IsBreak) == [[], [], []]
  {
    assert [a, b][..1] == [a] && [a][..0] == [];
    assert Pieces([a], IsBreak) == [[]] + [[]];
  }

  lemma CjkWordToken(w: String, numeric: String -> bool)
    requires IsCjkWord(w)
    ensures CjkWords(w) == [w] && OtherWords(w, numeric) == []
  {
    Classes(w[0]);
    assert w[..1] == [w[0]] && w[..1][..0] == [];
    assert CjkWords(w[..1]) == [];
    assert w == [START_OF_HEADING, w[1]];
    TwoBreaks(w[0], w[1]);
    AllEmpty([[], [], []]);
  }

  lemma {:induction false} AllEmpty(ss: seq<String>)
    requires forall i :: 0 <= i < |ss| ==> ss[i] == []
    ensures NonEmpty(ss) == []
  {
    if ss != [] {
      AllEmpty(ss[..|ss| - 1]);
    }
  }

  /** Every word of a text is the only word of itself. */
  lemma TokensFixed(s: String, numeric: String -> bool, w: String)
    requires w in Tokens(s, numeric)
    ensures Tokens(w, numeric) == [w]
  {
    if w in CjkWords(s) {
      CjkWordShape(s, w);
      CjkWordToken(w, numeric);
    } else {
      OtherWordShape(s, numeric, w);
      OtherWordToken(w, numeric);
    }
  }

  function Joined(ws: seq<String>): String {
    if ws == [] then [] else Joined(ws[..|ws| - 1]) + [SPACE] + ws[|ws| - 1]
  }

  lemma NoText(numeric: String -> bool)
    ensures CjkWords([]) == [] && OtherWords([], numeric) == []
  {
    AllEmpty([[]]);
  }

  lemma OneMore<T>(xs: seq<T>)
    requires xs != []
    ensures xs[..|xs| - 1] + [xs[|xs| - 1]] == xs && xs[..|xs| - 1] + [] == xs[..|xs| - 1]
  {
  }

  lemma {:induction false} JoinedOthers(ws: seq<String>, numeric: String -> bool)
    requires forall i :: 0 <= i < |ws| ==> IsOtherWord(ws[i], numeric)
    ensures CjkWords(Joined(ws)) == [] && OtherWords(Joined(ws), numeric) == ws
    decreases |ws|
  {
    if ws == [] {
      NoText(numeric);
    } else {
      var before, w := ws[..|ws| - 1], ws[|ws| - 1];
      JoinedOthers(before, numeric);
      OtherWordToken(w, numeric);
      CjkWordsSpaced(Joined(before), w);
      OtherWordsJoin(Joined(before), SPACE, w, numeric);
      OneMore(ws);
    }
  }

  lemma {:induction false} JoinedCjk(ws: seq<String>, numeric: String -> bool)
    requires forall i :: 0 <= i < |ws| ==> IsCjkWord(ws[i])
    ensures CjkWords(Joined(ws)) == ws && OtherWords(Joined(ws), numeric) == []
    decreases |ws|
  {
    if ws == [] {
      NoText(numeric);
    } else {
      var before, w := ws[..|ws| - 1], ws[|ws| - 1];
      JoinedCjk(before, numeric);
      CjkWordToken(w, numeric);
      CjkWordsSpaced(Joined(before), w);
      OtherWordsJoin(Joined(before), SPACE, w, numeric);
      OneMore(ws);
    }
  }

  /** Joining the words of a text with spaces and tokenizing again gives the same words in the same order. */
  lemma TokensAgain(s: String, numeric: String -> bool)
    ensures Tokens(Joined(CjkWords(s)) + [SPACE] + Joined(OtherWords(s, numeric)), numeric) == Tokens(s, numeric)
  {
    var cjk, others := CjkWords(s), OtherWords(s, numeric);
    forall i | 0 <= i < |cjk| ensures IsCjkWord(cjk[i]) {
      CjkWordShape(s, cjk[i]);
    }
    forall i | 0 <= i < |others| ensures IsOtherWord(others[i], numeric) {
      OtherWordShape(s, numeric, others[i]);
    }
    JoinedCjk(cjk, numeric);
    JoinedOthers(others, numeric);
    TokensJoin(Joined(cjk), Joined(others), numeric);
    Drops(cjk, others);
  }

  lemma Drops<T>(a: seq<T>, b: seq<T>)
    ensures a + [] + [] + b == a + b
  {
  }
}
