/** core/vca/string: XMLParser, which finds the text between tags, and xml_tag_content, which joins it to one line. The
    decoder of the bytes is a parameter; it fails on what is no text. */
module Xmls {
  import opened Wrappers
  import opened Texts
  import opened Entities

  type Byte = b: int | 0 <= b < 256

  const OPEN: Byte := 0x3c
  const CLOSE: Byte := 0x3e
  const HYPHEN: Char := 0x2d

  type Decoder = seq<Byte> -> Option<String>

  /** Where the index stands after a call of next, and what the call has cut out: content[start..stop]. */
  datatype Found = Found(index: nat, start: int, stop: int)

  predicate AtEnd(content: seq<Byte>, i: nat) {
    i + 1 >= |content|
  }

  function ScanFrom(content: seq<Byte>, i: nat, start: int): Found
    decreases |content| - i
  {
    if AtEnd(content, i) then Found(i, start, -1)
    else if content[i] == CLOSE then ScanFrom(content, i + 1, i + 1)
    else if start >= 0 && content[i] == OPEN then Found(i, start, i - 1)
    else ScanFrom(content, i + 1, start)
  }

  function Scan(content: seq<Byte>, i: nat): Found {
    ScanFrom(content, i, -1)
  }

  // ---- what a scan finds ----

  predicate NoTag(content: seq<Byte>, from: int, to: int) {
    forall k :: 0 <= from <= k < to && k < |content| ==> content[k] != OPEN && content[k] != CLOSE
  }

  /** Text between two tags: it follows a '>', a '<' that is not the last byte follows it, and neither is in it. */
  predicate IsText(content: seq<Byte>, start: int, open: int) {
    && 1 <= start <= open && open + 1 < |content|
    && content[start - 1] == CLOSE && content[open] == OPEN && NoTag(content, start, open)
  }

  predicate HasClose(content: seq<Byte>, from: nat, to: int) {
    exists k :: from <= k < to && k < |content| && content[k] == CLOSE
  }

  /** The first '<' after some '>', both at or after i. */
  predicate IsFirst(content: seq<Byte>, i: nat, m: nat) {
    && i < m && m + 1 < |content| && content[m] == OPEN && HasClose(content, i, m)
    && forall k :: i <= k < m && content[k] == OPEN ==> !HasClose(content, i, k)
  }

  /** The state of the loop: start is where the text after the last '>' begins, if there was one. */
  predicate Tracks(content: seq<Byte>, i0: nat, i: nat, start: int) {
    && i0 <= i
    && (start == -1 ==> !HasClose(content, i0, i))
    && (start != -1 ==> i0 < start <= i && start <= |content| && content[start - 1] == CLOSE
                        && NoTag(content, start, i))
    && forall k :: i0 <= k < i && k < |content| && content[k] == OPEN ==> !HasClose(content, i0, k)
  }

  lemma {:induction false} ScanFromFinds(content: seq<Byte>, i0: nat, i: nat, start: int)
    requires Tracks(content, i0, i, start) && start >= -1 && (i <= i0 ==> start == -1)
    ensures var f := ScanFrom(content, i, start);
            && i <= f.index && (!AtEnd(content, i0) ==> i0 < f.index) && (f.index == i || f.index < |content|)
            && f.start >= -1 && f.stop >= -1
            && (f.stop != -1 ==> f.stop == f.index - 1 && IsFirst(content, i0, f.index)
                                 && i0 < f.start && IsText(content, f.start, f.index))
            && (f.stop == -1 ==> AtEnd(content, f.index) && Tracks(content, i0, f.index, f.start))
    decreases |content| - i
  {
    if !AtEnd(content, i) {
      if content[i] == CLOSE {
        assert HasClose(content, i0, i + 1);
        ScanFromFinds(content, i0, i + 1, i + 1);
      } else if start >= 0 && content[i] == OPEN {
        assert HasClose(content, i0, i);
      } else {
        if start == -1 {
          assert !HasClose(content, i0, i + 1);
        }
        ScanFromFinds(content, i0, i + 1, start);
      }
    }
  }

  /** A call of next that does not start at the end moves the index on. It stops at the first '<' after a '>' and
      cuts out the text before it but for its last byte; or it stops at the end and there is no such '<'. */
  lemma ScanFinds(content: seq<Byte>, i: nat)
    ensures var f := Scan(content, i);
            && i <= f.index && (!AtEnd(content, i) ==> i < f.index < |content|) && f.start >= -1 && f.stop >= -1
            && (f.stop != -1 ==> f.stop == f.index - 1 && IsFirst(content, i, f.index)
                                 && i < f.start && IsText(content, f.start, f.index))
            && (f.stop == -1 ==> AtEnd(content, f.index) && forall m :: !IsFirst(content, i, m))
  {
    ScanFromFinds(content, i, i, -1);
    var f := Scan(content, i);
    if f.stop == -1 {
      forall m ensures !IsFirst(content, i, m) {
      }
    }
  }

  // ---- all calls of next, to the end ----

  datatype Slice = Slice(start: nat, stop: nat)

  function Slices(content: seq<Byte>, i: nat): (r: seq<Slice>)
    ensures forall k :: 0 <= k < |r| ==> r[k].start < r[k].stop < |content|
    decreases |content| - i
  {
    if AtEnd(content, i) then []
    else
      ScanFinds(content, i);
      var f := Scan(content, i);
      if f.start < f.stop then [Slice(f.start, f.stop)] + Slices(content, f.index) else Slices(content, f.index)
  }

  lemma {:induction false} FirstExists(content: seq<Byte>, i: nat, m: nat) returns (first: nat)
    requires i < m && m + 1 < |content| && content[m] == OPEN && HasClose(content, i, m)
    ensures first <= m && IsFirst(content, i, first)
    decreases m
  {
    if k :| i <= k < m && content[k] == OPEN && HasClose(content, i, k) {
      first := FirstExists(content, i, k);
    } else {
      first := m;
    }
  }

  lemma SameText(content: seq<Byte>, start: int, start': int, open: int)
    requires IsText(content, start, open) && IsText(content, start', open)
    ensures start == start'
  {
  }

  /** The next stop is before or at the end of any text that is still ahead. */
  lemma NextIsBefore(content: seq<Byte>, i: nat, start: nat, open: nat)
    requires IsText(content, start, open) && i < start
    ensures !AtEnd(content, i)
    ensures var f := Scan(content, i);
            f.stop != -1 && ((f.index == open && f.start == start) || f.index < start)
  {
    ScanFinds(content, i);
    var f := Scan(content, i);
    assert HasClose(content, i, open);
    var first := FirstExists(content, i, open);
    if f.index == open {
      SameText(content, f.start, start, open);
    }
  }

  lemma {:induction false} SlicesFrom(content: seq<Byte>, i: nat, x: Slice)
    ensures x in Slices(content, i) <==> i < x.start < x.stop && IsText(content, x.start, x.stop + 1)
    decreases |content| - i
  {
    if i < x.start < x.stop && IsText(content, x.start, x.stop + 1) {
      NextIsBefore(content, i, x.start, x.stop + 1);
    }
    if !AtEnd(content, i) {
      ScanFinds(content, i);
      SlicesFrom(content, Scan(content, i).index, x);
    }
  }

  /** The calls of next on a document cut out all texts of at least two bytes between tags, each but for its last byte,
      and nothing else. */
  lemma SlicesExact(content: seq<Byte>, x: Slice)
    ensures x in Slices(content, 0) <==> x.start < x.stop && IsText(content, x.start, x.stop + 1)
  {
    SlicesFrom(content, 0, x);
  }

  /** The slices come in the order of the document, and between any two of them there are tags. */
  lemma {:induction false} SlicesAscend(content: seq<Byte>, i: nat, a: nat, b: nat)
    requires a < b < |Slices(content, i)|
    ensures Slices(content, i)[a].stop + 1 < Slices(content, i)[b].start
    decreases |content| - i
  {
    ScanFinds(content, i);
    var f := Scan(content, i);
    var later := Slices(content, f.index);
    if f.start < f.stop {
      assert Slices(content, i) == [Slice(f.start, f.stop)] + later;
      if a == 0 {
        SlicesFrom(content, f.index, later[b - 1]);
      } else {
        SlicesAscend(content, f.index, a - 1, b - 1);
      }
    } else {
      SlicesAscend(content, f.index, a, b);
    }
  }

  // ---- the lines ----

  function LineOf(content: seq<Byte>, x: Slice, decode: Decoder): String
    requires x.start < x.stop < |content|
  {
    match decode(content[x.start..x.stop])
    case Some(text) => Unescape(text)
    case None => []
  }

  /** What a call of next returns. */
  function NextText(content: seq<Byte>, i: nat, decode: Decoder): String {
    ScanFinds(content, i);
    var f := Scan(content, i);
    if f.start < f.stop then LineOf(content, Slice(f.start, f.stop), decode) else []
  }

  /** A line that ends with a hyphen goes on with the next one; after another line comes a space. */
  function Continued(line: String): String {
    if line == [] then []
    else if line[|line| - 1] == HYPHEN then line[..|line| - 1]
    else line + [SPACE]
  }

  /** What the calls of next return from index i to the end, trimmed. */
  function Lines(content: seq<Byte>, i: nat, decode: Decoder): seq<String>
    decreases |content| - i
  {
    if AtEnd(content, i) then []
    else
      ScanFinds(content, i);
      [Trim(NextText(content, i, decode))] + Lines(content, Scan(content, i).index, decode)
  }

  /** The lines are taken until the count of four bytes for each character of them reaches the limit. */
  function Gather(lines: seq<String>, count: nat, max: nat): String {
    if lines == [] || count >= max then []
    else Continued(lines[0]) + Gather(lines[1..], count + 4 * |lines[0]|, max)
  }

  function TagContent(content: seq<Byte>, max: nat, decode: Decoder): String {
    Unescape(Gather(Lines(content, 0, decode), 0, max))
  }

  lemma LinesStep(content: seq<Byte>, i: nat, decode: Decoder)
    requires !AtEnd(content, i)
    ensures Lines(content, i, decode)
            == [Trim(NextText(content, i, decode))] + Lines(content, Scan(content, i).index, decode)
  {
  }

  lemma GatherCons(line: String, rest: seq<String>, count: nat, max: nat)
    requires count < max
    ensures Gather([line] + rest, count, max) == Continued(line) + Gather(rest, count + 4 * |line|, max)
  {
    assert ([line] + rest)[1..] == rest;
  }

  function Chars(lines: seq<String>): nat {
    if lines == [] then 0 else |lines[0]| + Chars(lines[1..])
  }

  function JoinAll(lines: seq<String>): String {
    if lines == [] then [] else Continued(lines[0]) + JoinAll(lines[1..])
  }

  /** The result joins the first k lines: before each of them the limit is not reached, after the last it is, unless
      there are no more lines. */
  lemma {:induction false} GatherExact(lines: seq<String>, count: nat, max: nat) returns (k: nat)
    ensures k <= |lines| && Gather(lines, count, max) == JoinAll(lines[..k])
    ensures forall j :: 0 <= j < k ==> count + 4 * Chars(lines[..j]) < max
    ensures k < |lines| ==> count + 4 * Chars(lines[..k]) >= max
    decreases |lines|
  {
    if lines == [] || count >= max {
      k := 0;
    } else {
      var rest, more := lines[1..], count + 4 * |lines[0]|;
      var n := GatherExact(rest, more, max);
      k := n + 1;
      forall j | 0 <= j <= |rest|
        ensures lines[..j + 1][1..] == rest[..j] && Chars(lines[..j + 1]) == |lines[0]| + Chars(rest[..j])
      {
      }
      forall j | 0 <= j < k ensures count + 4 * Chars(lines[..j]) < max {
        if j > 0 {
          assert Chars(lines[..j - 1 + 1]) == |lines[0]| + Chars(rest[..j - 1]);
        }
      }
      assert lines[..k][1..] == rest[..n];
    }
  }

  /** A line that ends with a hyphen goes on without it with the next; any other ends with a space; an empty one is
      nothing. */
  lemma JoinExact(line: String, rest: seq<String>)
    ensures JoinAll([line] + rest) ==
            if line == [] then JoinAll(rest)
            else if line[|line| - 1] == 0x2d then line[..|line| - 1] + JoinAll(rest)
            else line + [0x20] + JoinAll(rest)
    ensures JoinAll([]) == []
  {
    assert ([line] + rest)[1..] == rest;
  }

  /** A word that is broken at the end of a line is put together. */
  lemma HyphenJoins(a: String, rest: seq<String>)
    ensures JoinAll([a + [0x2d]] + rest) == a + JoinAll(rest)
  {
    JoinExact(a + [0x2d], rest);
  }

  /** Other lines stay apart: splitting the joined text at the spaces gives them back. */
  lemma {:induction false} JoinedLinesSplit(lines: seq<String>)
    requires forall k :: 0 <= k < |lines| ==> lines[k] != [] && 0x20 !in lines[k] && lines[k][|lines[k]| - 1] != 0x2d
    ensures NonEmpty(Pieces(JoinAll(lines), c => c == 0x20)) == lines
    decreases |lines|
  {
    var space: Char -> bool := c => c == 0x20;
    if lines == [] {
      AllEmpty([[]]);
    } else {
      var line, rest := lines[0], lines[1..];
      assert lines == [line] + rest;
      JoinExact(line, rest);
      JoinedLinesSplit(rest);
      NoDelimiter(line, space);
      PiecesJoin(line, 0x20, JoinAll(rest), space);
      NonEmptyJoin([line], Pieces(JoinAll(rest), space));
      OneRun(line);
    }
  }

  lemma {:induction false} NoDelimiter(s: String, delimiter: Char -> bool)
    requires forall i :: 0 <= i < |s| ==> !delimiter(s[i])
    ensures Pieces(s, delimiter) == [s]
    decreases |s|
  {
    if s != [] {
      NoDelimiter(s[..|s| - 1], delimiter);
      assert s[..|s| - 1] + [s[|s| - 1]] == s;
    }
  }

  /** Calls of next that return no text leave nothing. */
  lemma {:induction false} EmptyLinesJoinNothing(lines: seq<String>)
    ensures JoinAll(lines) == JoinAll(NonEmpty(lines))
    decreases |lines|
  {
    if lines != [] {
      var line, rest := lines[0], lines[1..];
      assert lines == [line] + rest;
      EmptyLinesJoinNothing(rest);
      NonEmptyJoin([line], rest);
      OneRun(line);
      JoinExact(line, rest);
      if line != [] {
        JoinExact(line, NonEmpty(rest));
      } else {
        NothingFirst(NonEmpty(rest));
      }
    }
  }

  /** The result is what the first k lines give, unescaped once more. */
  lemma TagContentExact(content: seq<Byte>, max: nat, decode: Decoder) returns (k: nat)
    ensures var lines := Lines(content, 0, decode);
            && k <= |lines| && TagContent(content, max, decode) == Unescape(JoinAll(lines[..k]))
            && (forall j :: 0 <= j < k ==> 4 * Chars(lines[..j]) < max)
            && (k < |lines| ==> 4 * Chars(lines[..k]) >= max)
  {
    k := GatherExact(Lines(content, 0, decode), 0, max);
  }

  /** Each text between tags is decoded, unescaped and then trimmed; what cannot be decoded is nothing. */
  lemma {:induction false} SliceLinesExact(content: seq<Byte>, xs: seq<Slice>, decode: Decoder, k: nat)
    requires forall k :: 0 <= k < |xs| ==> xs[k].start < xs[k].stop < |content|
    requires k < |xs|
    ensures |SliceLines(content, xs, decode)| == |xs|
    ensures SliceLines(content, xs, decode)[k] ==
            match decode(content[xs[k].start..xs[k].stop])
            case Some(text) => Trim(Unescape(text))
            case None => []
  {
    if k > 0 {
      SliceLinesExact(content, xs[1..], decode, k - 1);
    } else if |xs| > 1 {
      SliceLinesExact(content, xs[1..], decode, 0);
    }
  }

  function SliceLines(content: seq<Byte>, xs: seq<Slice>, decode: Decoder): seq<String>
    requires forall k :: 0 <= k < |xs| ==> xs[k].start < xs[k].stop < |content|
  {
    if xs == [] then [] else [Trim(LineOf(content, xs[0], decode))] + SliceLines(content, xs[1..], decode)
  }

  lemma SliceLinesCons(content: seq<Byte>, x: Slice, xs: seq<Slice>, decode: Decoder)
    requires forall k :: 0 <= k < |xs| ==> xs[k].start < xs[k].stop < |content|
    requires x.start < x.stop < |content|
    ensures SliceLines(content, [x] + xs, decode)
            == [Trim(LineOf(content, x, decode))] + SliceLines(content, xs, decode)
  {
    assert ([x] + xs)[1..] == xs;
  }

  /** The lines that are not empty are those of the texts between tags, in the order of the document. */
  lemma {:induction false} LinesExact(content: seq<Byte>, i: nat, decode: Decoder)
    ensures NonEmpty(Lines(content, i, decode)) == NonEmpty(SliceLines(content, Slices(content, i), decode))
    decreases |content| - i
  {
    if !AtEnd(content, i) {
      ScanFinds(content, i);
      var f := Scan(content, i);
      var line, rest := Trim(NextText(content, i, decode)), Lines(content, f.index, decode);
      LinesExact(content, f.index, decode);
      NonEmptyJoin([line], rest);
      if f.start < f.stop {
        SliceLinesCons(content, Slice(f.start, f.stop), Slices(content, f.index), decode);
        NonEmptyJoin([line], SliceLines(content, Slices(content, f.index), decode));
      } else {
        AllEmpty([line]);
        NothingFirst(NonEmpty(rest));
      }
    }
  }

  lemma NothingFirst<T>(xs: seq<T>)
    ensures [] + xs == xs
  {
  }

  ghost predicate NeverLengthens(decode: Decoder) {
    forall bs :: decode(bs).Some? ==> |decode(bs).value| <= |bs|
  }

  lemma LineIsShort(content: seq<Byte>, x: Slice, decode: Decoder)
    requires x.start < x.stop < |content| && NeverLengthens(decode)
    ensures |LineOf(content, x, decode)| <= x.stop - x.start
  {
    var bytes := content[x.start..x.stop];
    if decode(bytes).Some? {
      UnescapeShortens(decode(bytes).value);
    }
  }

  lemma TrimShortens(s: String)
    ensures |Trim(s)| <= |s|
  {
    TrimLeftShape(s);
    TrimRightShape(TrimLeft(s));
  }

  lemma NextIsShort(content: seq<Byte>, i: nat, decode: Decoder)
    requires NeverLengthens(decode) && !AtEnd(content, i)
    ensures |Continued(Trim(NextText(content, i, decode)))| <= Scan(content, i).index - i
    ensures Scan(content, i).index <= |content|
  {
    ScanFinds(content, i);
    var f := Scan(content, i);
    if f.start < f.stop {
      LineIsShort(content, Slice(f.start, f.stop), decode);
    }
    TrimShortens(NextText(content, i, decode));
  }

  lemma {:induction false} GatherIsShort(content: seq<Byte>, i: nat, decode: Decoder, count: nat, max: nat)
    requires i <= |content| && NeverLengthens(decode)
    ensures |Gather(Lines(content, i, decode), count, max)| <= |content| - i
    decreases |content| - i
  {
    if !AtEnd(content, i) && count < max {
      var line, next := Trim(NextText(content, i, decode)), Scan(content, i).index;
      LinesStep(content, i, decode);
      GatherCons(line, Lines(content, next, decode), count, max);
      NextIsShort(content, i, decode);
      ScanFinds(content, i);
      GatherIsShort(content, next, decode, count + 4 * |line|, max);
    }
  }

  /** The text of a document is no longer than the document, if the decoder lengthens nothing. */
  lemma TagContentIsShort(content: seq<Byte>, max: nat, decode: Decoder)
    requires NeverLengthens(decode)
    ensures |TagContent(content, max, decode)| <= |content|
  {
    GatherIsShort(content, 0, decode, 0, max);
    UnescapeShortens(Gather(Lines(content, 0, decode), 0, max));
  }

  // ---- the class ----

  class XMLParser {
    const content: seq<Byte>
    var index: nat

    constructor (content: seq<Byte>)
      ensures this.content == content && index == 0
    {
      this.content := content;
      index := 0;
    }

    predicate End()
      reads this
    {
      index + 1 >= |content|
    }

    method Next(decode: Decoder) returns (text: String)
      modifies this
      ensures index == Scan(content, old(index)).index && text == NextText(content, old(index), decode)
      ensures !AtEnd(content, old(index)) ==> old(index) < index
    {
      ScanFinds(content, index);
      var start, stop := -1, -1;
      while !End() && stop == -1
        invariant index >= old(index) && start >= -1 && stop >= -1
        invariant if stop == -1 then ScanFrom(content, index, start) == Scan(content, old(index))
                  else Found(index, start, stop) == Scan(content, old(index))
        decreases |content| - index, if stop == -1 then 1 else 0
      {
        if content[index] == CLOSE {
          start := index + 1;
          index := index + 1;
        } else if start >= 0 && content[index] == OPEN {
          stop := index - 1;
        } else {
          index := index + 1;
        }
      }
      if start >= stop {
        return [];
      }
      match decode(content[start..stop])
      case Some(wide) => text := XmlUnescape(wide);
      case None => text := [];
    }
  }

  ghost function LeftToJoin(content: seq<Byte>, i: nat, decode: Decoder, oneLine: String, count: nat,
                            max: nat): String {
    oneLine + Gather(Lines(content, i, decode), count, max)
  }

  lemma JoinStep(content: seq<Byte>, i: nat, decode: Decoder, line: String, next: nat, oneLine: String, count: nat,
                 max: nat)
    requires count < max && Lines(content, i, decode) == [line] + Lines(content, next, decode)
    ensures LeftToJoin(content, i, decode, oneLine, count, max) ==
            LeftToJoin(content, next, decode, oneLine + Continued(line), count + 4 * |line|, max)
  {
    GatherNext(oneLine, line, Lines(content, next, decode), count, max);
  }

  lemma GatherNext(oneLine: String, line: String, rest: seq<String>, count: nat, max: nat)
    requires count < max
    ensures oneLine + Gather([line] + rest, count, max)
            == oneLine + Continued(line) + Gather(rest, count + 4 * |line|, max)
  {
    GatherCons(line, rest, count, max);
  }

  /** A line joins what there is. */
  method Append(oneLine: String, line: String) returns (r: String)
    ensures r == oneLine + Continued(line)
  {
    if line == [] {
      return oneLine;
    }
    if line[|line| - 1] == HYPHEN {
      r := oneLine + line[..|line| - 1];
    } else {
      r := oneLine + (line + [SPACE]);
    }
  }

  /** One round of the loop. */
  method JoinNext(parser: XMLParser, decode: Decoder, oneLine: String, count: nat, ghost max: nat)
    returns (r: String, n: nat)
    requires !parser.End() && count < max
    modifies parser
    ensures old(parser.index) < parser.index
    ensures LeftToJoin(parser.content, parser.index, decode, r, n, max) ==
            LeftToJoin(parser.content, old(parser.index), decode, oneLine, count, max)
  {
    LinesStep(parser.content, parser.index, decode);
    var line := parser.Next(decode);
    line := TrimString(line);
    JoinStep(parser.content, old(parser.index), decode, line, parser.index, oneLine, count, max);
    r := Append(oneLine, line);
    n := count + |line| * 4;
  }

  method JoinLines(content: seq<Byte>, max: nat, decode: Decoder) returns (oneLine: String)
    ensures oneLine == Gather(Lines(content, 0, decode), 0, max)
  {
    var parser := new XMLParser(content);
    oneLine := [];
    var count: nat := 0;
    ghost var all := LeftToJoin(content, 0, decode, [], 0, max);
    while !parser.End() && count < max
      invariant parser.content == content
      invariant LeftToJoin(content, parser.index, decode, oneLine, count, max) == all
      decreases |content| - parser.index
    {
      oneLine, count := JoinNext(parser, decode, oneLine, count, max);
    }
    assert oneLine + [] == oneLine;
  }

  method XmlTagContent(content: seq<Byte>, max: nat, decode: Decoder) returns (r: String)
    ensures r == TagContent(content, max, decode)
  {
    r := JoinLines(content, max, decode);
    r := XmlUnescape(r);
  }
}
