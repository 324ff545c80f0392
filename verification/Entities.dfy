/** core/vca/string: xml_unescape, five passes that each replace one entity. */
module Entities {
  import opened Texts

  const AMPERSAND: Char := 0x26

  datatype Entity = Amp | Apos | Gt | Lt | Quot

  /** The text between the ampersand and what follows, with the semicolon. */
  function Name(e: Entity): String {
    match e
    case Amp => [0x61, 0x6d, 0x70, 0x3b]
    case Apos => [0x61, 0x70, 0x6f, 0x73, 0x3b]
    case Gt => [0x67, 0x74, 0x3b]
    case Lt => [0x6c, 0x74, 0x3b]
    case Quot => [0x71, 0x75, 0x6f, 0x74, 0x3b]
  }

  function Meaning(e: Entity): Char {
    match e
    case Amp => AMPERSAND
    case Apos => 0x27
    case Gt => 0x3e
    case Lt => 0x3c
    case Quot => 0x22
  }

  function Code(e: Entity): String {
    [AMPERSAND] + Name(e)
  }

  /** The order of the keys of the map. */
  const PASSES: seq<Entity> := [Amp, Apos, Gt, Lt, Quot]

  /** Replaces from left to right, and does not look again at what it has put in. */
  function Replace(s: String, e: Entity): String
    decreases |s|
  {
    if s == [] then []
    else if Code(e) <= s then [Meaning(e)] + Replace(s[|Code(e)|..], e)
    else [s[0]] + Replace(s[1..], e)
  }

  function ReplaceEach(s: String, es: seq<Entity>): String
    decreases |es|
  {
    if es == [] then s else ReplaceEach(Replace(s, es[0]), es[1..])
  }

  function Unescape(s: String): String {
    ReplaceEach(s, PASSES)
  }

  predicate Contains(s: String, t: String)
    decreases |s|
  {
    t <= s || (s != [] && Contains(s[1..], t))
  }

  // ---- the methods ----

  lemma Shift<T>(a: seq<T>, x: T, b: seq<T>)
    ensures a + ([x] + b) == a + [x] + b
  {
  }

  method ReplaceAllIn(text: String, e: Entity) returns (r: String)
    ensures r == Replace(text, e)
  {
    r := [];
    var rest := text;
    while rest != []
      invariant r + Replace(rest, e) == Replace(text, e)
      decreases |rest|
    {
      if Code(e) <= rest {
        Shift(r, Meaning(e), Replace(rest[|Code(e)|..], e));
        r, rest := r + [Meaning(e)], rest[|Code(e)|..];
      } else {
        Shift(r, rest[0], Replace(rest[1..], e));
        r, rest := r + [rest[0]], rest[1..];
      }
    }
  }

  method XmlUnescape(text: String) returns (r: String)
    ensures r == Unescape(text)
  {
    r := text;
    var i := 0;
    while i < |PASSES|
      invariant 0 <= i <= |PASSES| && ReplaceEach(r, PASSES[i..]) == Unescape(text)
    {
      assert PASSES[i..][1..] == PASSES[i + 1..];
      r := ReplaceAllIn(r, PASSES[i]);
      i := i + 1;
    }
  }

  // ---- length, and text without entities ----

  lemma {:induction false} ReplaceShortens(s: String, e: Entity)
    ensures |Replace(s, e)| <= |s|
    decreases |s|
  {
    if s != [] {
      if Code(e) <= s {
        ReplaceShortens(s[|Code(e)|..], e);
      } else {
        ReplaceShortens(s[1..], e);
      }
    }
  }

  lemma {:induction false} EachShortens(s: String, es: seq<Entity>)
    ensures |ReplaceEach(s, es)| <= |s|
    decreases |es|
  {
    if es != [] {
      ReplaceShortens(s, es[0]);
      EachShortens(Replace(s, es[0]), es[1..]);
    }
  }

  predicate Plain(s: String) {
    forall i :: 0 <= i < |s| ==> s[i] != AMPERSAND
  }

  lemma NamesPlain(e: Entity)
    ensures Plain(Name(e))
  {
  }

  lemma PlainCharStays(c: Char, s: String, e: Entity)
    requires c != AMPERSAND
    ensures Replace([c] + s, e) == [c] + Replace(s, e)
  {
    assert Code(e)[0] == AMPERSAND;
    assert ([c] + s)[1..] == s;
  }

  lemma HeadFirst<T>(t: seq<T>, rest: seq<T>)
    requires t != []
    ensures t + rest == [t[0]] + (t[1..] + rest)
  {
  }

  /** What comes before the first ampersand stays, and the rest is replaced by itself. */
  lemma {:induction false} PlainStays(t: String, rest: String, e: Entity)
    requires Plain(t)
    ensures Replace(t + rest, e) == t + Replace(rest, e)
    decreases |t|
  {
    if t == [] {
      assert t + rest == rest;
    } else {
      PlainStays(t[1..], rest, e);
      PlainCharStays(t[0], t[1..] + rest, e);
      HeadFirst(t, rest);
      HeadFirst(t, Replace(rest, e));
    }
  }

  lemma {:induction false} EachPlain(s: String, es: seq<Entity>)
    requires Plain(s)
    ensures ReplaceEach(s, es) == s
    decreases |es|
  {
    if es != [] {
      assert s + [] == s;
      PlainStays(s, [], es[0]);
      EachPlain(s, es[1..]);
    }
  }

  /** Unescaping never makes a text longer, and leaves a text without ampersand as it is. */
  lemma UnescapeShortens(s: String)
    ensures |Unescape(s)| <= |s| && (Plain(s) ==> Unescape(s) == s)
  {
    EachShortens(s, PASSES);
    if Plain(s) {
      EachPlain(s, PASSES);
    }
  }

  // ---- which entities are left ----

  lemma {:induction false} ContainsLater(s: String, k: nat, t: String)
    requires k <= |s| && Contains(s[k..], t)
    ensures Contains(s, t)
    decreases k
  {
    if k == 0 {
      assert s[0..] == s;
    } else {
      assert s[1..][k - 1..] == s[k..];
      ContainsLater(s[1..], k - 1, t);
    }
  }

  lemma PrefixStep(t: String, s: String)
    requires t != [] && s != []
    ensures t <= s <==> t[0] == s[0] && t[1..] <= s[1..]
  {
    if t[0] == s[0] && t[1..] <= s[1..] {
      assert t == [t[0]] + t[1..] && s == [s[0]] + s[1..];
    }
  }

  /** A text without the character a pass puts in is at the start of the result only if it was at the start. */
  lemma {:induction false} PrefixBefore(s: String, e: Entity, t: String)
    requires Meaning(e) !in t && t <= Replace(s, e)
    ensures t <= s && (t != [] ==> !(Code(e) <= s))
    decreases |s|
  {
    if t != [] {
      assert s != [];
      var r := Replace(s, e);
      assert t[0] == r[0];
      if !(Code(e) <= s) {
        assert r[1..] == Replace(s[1..], e);
        PrefixStep(t, r);
        PrefixBefore(s[1..], e, t[1..]);
        PrefixStep(t, s);
      }
    }
  }

  /** A pass brings in no text that does not have the character it puts in, */
  lemma {:induction false} NoNew(s: String, e: Entity, t: String)
    requires Meaning(e) !in t && t != [] && !Contains(s, t)
    ensures !Contains(Replace(s, e), t)
    decreases |s|
  {
    var r := Replace(s, e);
    if t <= r {
      PrefixBefore(s, e, t);
    }
    if s != [] {
      if Code(e) <= s {
        if Contains(s[|Code(e)|..], t) {
          ContainsLater(s, |Code(e)|, t);
        }
        NoNew(s[|Code(e)|..], e, t);
        assert r[1..] == Replace(s[|Code(e)|..], e);
      } else {
        NoNew(s[1..], e, t);
        assert r[1..] == Replace(s[1..], e);
      }
    }
  }

  /** and leaves none of its own entity, unless it is the one for the ampersand. */
  lemma {:induction false} NoneLeft(s: String, e: Entity)
    requires e != Amp
    ensures !Contains(Replace(s, e), Code(e))
    decreases |s|
  {
    var r := Replace(s, e);
    assert Meaning(e) !in Code(e);
    if Code(e) <= r {
      PrefixBefore(s, e, Code(e));
    }
    if s != [] {
      if Code(e) <= s {
        NoneLeft(s[|Code(e)|..], e);
        assert r[1..] == Replace(s[|Code(e)|..], e);
      } else {
        NoneLeft(s[1..], e);
        assert r[1..] == Replace(s[1..], e);
      }
    }
  }

  lemma MeaningsApart(e: Entity, f: Entity)
    requires e != Amp
    ensures Meaning(e) !in Code(f)
  {
  }

  lemma {:induction false} EachNoNew(s: String, es: seq<Entity>, f: Entity)
    requires Amp !in es && !Contains(s, Code(f))
    ensures !Contains(ReplaceEach(s, es), Code(f))
    decreases |es|
  {
    if es != [] {
      assert es[0] in es;
      MeaningsApart(es[0], f);
      NoNew(s, es[0], Code(f));
      EachNoNew(Replace(s, es[0]), es[1..], f);
    }
  }

  lemma {:induction false} EachNoneLeft(s: String, es: seq<Entity>, f: Entity)
    requires Amp !in es && f in es
    ensures !Contains(ReplaceEach(s, es), Code(f))
    decreases |es|
  {
    if es[0] == f {
      NoneLeft(s, f);
      EachNoNew(Replace(s, f), es[1..], f);
    } else {
      EachNoneLeft(Replace(s, es[0]), es[1..], f);
    }
  }

  /** The result has none of the four other entities, although the first pass can make new ones. */
  lemma UnescapedHasNone(s: String, f: Entity)
    requires f != Amp
    ensures !Contains(Unescape(s), Code(f))
  {
    assert PASSES[1..] == [Apos, Gt, Lt, Quot];
    EachNoneLeft(Replace(s, Amp), PASSES[1..], f);
  }

  // ---- the ampersand ----

  /** Text without ampersands comes first in the result exactly when it does in the text. */
  lemma {:induction false} PlainPrefix(s: String, e: Entity, t: String)
    requires Plain(t) && Meaning(e) !in t
    ensures t <= Replace(s, e) <==> t <= s
    decreases |s|
  {
    if t != [] && s != [] {
      if Code(e) <= s {
        assert s[0] == AMPERSAND && Replace(s, e)[0] == Meaning(e);
        assert t[0] != AMPERSAND && t[0] != Meaning(e);
      } else {
        assert Replace(s, e)[1..] == Replace(s[1..], e);
        PlainPrefix(s[1..], e, t[1..]);
        PrefixStep(t, Replace(s, e));
        PrefixStep(t, s);
      }
    }
  }

  /** What starts with an ampersand cannot begin within plain text. */
  lemma {:induction false} SkipPlain(s: String, k: nat, t: String)
    requires k <= |s| && Plain(s[..k]) && t != [] && t[0] == AMPERSAND
    ensures Contains(s, t) <==> Contains(s[k..], t)
    decreases k
  {
    if k == 0 {
      assert s[0..] == s;
    } else {
      assert s[..k][0] == s[0];
      assert s[1..][..k - 1] == s[..k][1..];
      assert s[1..][k - 1..] == s[k..];
      SkipPlain(s[1..], k - 1, t);
    }
  }

  function Doubled(): String {
    Code(Amp) + Name(Amp)
  }

  lemma AfterCode(s: String, e: Entity, t: String)
    requires Code(e) <= s && t != [] && t[0] == AMPERSAND
    ensures Contains(s, t) <==> t <= s || Contains(s[|Code(e)|..], t)
  {
    var k := |Code(e)|;
    assert s[..k] == Code(e);
    assert s[1..][..k - 1] == Name(e);
    NamesPlain(e);
    SkipPlain(s[1..], k - 1, t);
    assert s[1..][k - 1..] == s[k..];
  }

  lemma DoubledHasCode(s: String)
    ensures Doubled() <= s ==> Code(Amp) <= s
  {
    if Doubled() <= s {
      assert s == Code(Amp) + (Name(Amp) + s[|Doubled()|..]);
    }
  }

  lemma DoubledStart(s: String)
    requires Code(Amp) <= s
    ensures Doubled() <= s <==> Name(Amp) <= s[|Code(Amp)|..]
  {
    var k := |Code(Amp)|;
    assert s == s[..k] + s[k..];
    if Name(Amp) <= s[k..] {
      assert s[k..] == Name(Amp) + s[k..][|Name(Amp)|..];
    }
    if Doubled() <= s {
      assert s[k..][..|Name(Amp)|] == Doubled()[k..];
    }
  }

  /** The pass for the ampersand leaves one where there were two. */
  lemma {:induction false} AmpPassExact(s: String)
    ensures Contains(Replace(s, Amp), Code(Amp)) <==> Contains(s, Doubled())
    decreases |s|
  {
    var r := Replace(s, Amp);
    NamesPlain(Amp);
    if s != [] {
      assert Doubled()[0] == AMPERSAND && Code(Amp)[0] == AMPERSAND && Code(Amp)[1..] == Name(Amp);
      if Code(Amp) <= s {
        var rest := s[|Code(Amp)|..];
        assert r[1..] == Replace(rest, Amp);
        AmpPassExact(rest);
        PrefixStep(Code(Amp), r);
        PlainPrefix(rest, Amp, Name(Amp));
        DoubledStart(s);
        AfterCode(s, Amp, Doubled());
      } else {
        assert r[1..] == Replace(s[1..], Amp);
        AmpPassExact(s[1..]);
        PrefixStep(Code(Amp), r);
        PrefixStep(Code(Amp), s);
        PlainPrefix(s[1..], Amp, Name(Amp));
        DoubledHasCode(s);
      }
    }
  }

  lemma CodesApart(e: Entity, f: Entity, s: String)
    requires e != f
    ensures !(Code(e) <= Code(f) + s)
  {
    assert Code(e)[1] != Code(f)[1] || Code(e)[2] != Code(f)[2];
    assert (Code(f) + s)[1] == Code(f)[1] && (Code(f) + s)[2] == Code(f)[2];
  }

  lemma CodeThen(e: Entity, s: String)
    requires Code(e) <= s
    ensures s == Code(e) + s[|Code(e)|..] && s[1..] == Name(e) + s[|Code(e)|..]
  {
  }

  /** A pass for another entity leaves a code as it is. */
  lemma CodeStays(e: Entity, f: Entity, rest: String)
    requires e != f
    ensures Replace(Code(f) + rest, e) == Code(f) + Replace(rest, e)
  {
    var s := Code(f) + rest;
    CodesApart(e, f, rest);
    assert s[1..] == Name(f) + rest && s[0] == AMPERSAND;
    NamesPlain(f);
    PlainStays(Name(f), rest, e);
    HeadFirst(Code(f), Replace(rest, e));
    assert Code(f)[1..] == Name(f);
  }

  lemma {:induction false} AmpStays(s: String, e: Entity)
    requires e != Amp && Contains(s, Code(Amp))
    ensures Contains(Replace(s, e), Code(Amp))
    decreases |s|
  {
    var r := Replace(s, e);
    if Code(Amp) <= s {
      CodeThen(Amp, s);
      CodeStays(e, Amp, s[|Code(Amp)|..]);
    } else if Code(e) <= s {
      AfterCode(s, e, Code(Amp));
      AmpStays(s[|Code(e)|..], e);
      assert r[1..] == Replace(s[|Code(e)|..], e);
    } else {
      AmpStays(s[1..], e);
      assert r[1..] == Replace(s[1..], e);
    }
  }

  lemma {:induction false} EachAmp(s: String, es: seq<Entity>)
    requires Amp !in es
    ensures Contains(ReplaceEach(s, es), Code(Amp)) <==> Contains(s, Code(Amp))
    decreases |es|
  {
    if Contains(s, Code(Amp)) {
      if es != [] {
        assert es[0] in es;
        AmpStays(s, es[0]);
        EachAmp(Replace(s, es[0]), es[1..]);
      }
    } else {
      EachNoNew(s, es, Amp);
    }
  }

  /** The result has the entity for the ampersand if and only if the text has it doubled. */
  lemma UnescapedAmpExact(s: String)
    ensures Contains(Unescape(s), Code(Amp)) <==> Contains(s, Doubled())
  {
    AmpPassExact(s);
    assert PASSES[1..] == [Apos, Gt, Lt, Quot];
    EachAmp(Replace(s, Amp), PASSES[1..]);
  }

  // ---- escaping ----

  function CodeFor(c: Char, es: seq<Entity>): String {
    if es == [] then [c] else if Meaning(es[0]) == c then Code(es[0]) else CodeFor(c, es[1..])
  }

  /** Each character that one of the entities stands for becomes its code. */
  function Escaped(s: String, es: seq<Entity>): String {
    if s == [] then [] else CodeFor(s[0], es) + Escaped(s[1..], es)
  }

  function Escape(s: String): String {
    Escaped(s, PASSES)
  }

  lemma {:induction false} CodeForCases(c: Char, es: seq<Entity>)
    ensures CodeFor(c, es) == [c] || exists f :: f in es && Meaning(f) == c && CodeFor(c, es) == Code(f)
    ensures (forall f :: f in es ==> Meaning(f) != c) ==> CodeFor(c, es) == [c]
    decreases |es|
  {
    if es != [] {
      assert es[0] in es;
      CodeForCases(c, es[1..]);
    }
  }

  lemma {:induction false} PrefixEscaped(s: String, es: seq<Entity>, t: String)
    requires Plain(t) && t <= Escaped(s, es)
    ensures t <= s
    decreases |s|
  {
    if t != [] {
      assert s != [];
      var c := s[0];
      CodeForCases(c, es);
      assert t[0] == Escaped(s, es)[0] != AMPERSAND;
      assert CodeFor(c, es) == [c];
      assert Escaped(s, es)[1..] == Escaped(s[1..], es);
      PrefixStep(t, Escaped(s, es));
      PrefixEscaped(s[1..], es, t[1..]);
      PrefixStep(t, s);
    }
  }

  lemma MeaningsDiffer(e: Entity, f: Entity)
    requires e != f
    ensures Meaning(e) != Meaning(f)
  {
  }

  /** The pass for one entity takes back its escapes, if the text did not have the entity itself before. */
  lemma {:induction false} PassTakesBack(s: String, e: Entity, es: seq<Entity>)
    requires e !in es && Amp !in es && (e == Amp || !Contains(s, Code(e)))
    ensures Replace(Escaped(s, [e] + es), e) == Escaped(s, es)
    decreases |s|
  {
    if s != [] {
      var c := s[0];
      var all := [e] + es;
      var rest := Escaped(s[1..], all);
      PassTakesBack(s[1..], e, es);
      assert all[1..] == es;
      if c == Meaning(e) {
        assert (Code(e) + rest)[|Code(e)|..] == rest;
        forall f | f in es ensures Meaning(f) != c {
          MeaningsDiffer(e, f);
        }
        CodeForCases(c, es);
      } else {
        assert CodeFor(c, all) == CodeFor(c, es);
        CodeForCases(c, es);
        if CodeFor(c, es) == [c] {
          LoneCharStays(s, e, all);
        } else {
          var f :| f in es && Meaning(f) == c && CodeFor(c, es) == Code(f);
          CodeStays(e, f, rest);
        }
      }
    }
  }

  lemma LoneCharStays(s: String, e: Entity, es: seq<Entity>)
    requires s != [] && s[0] != Meaning(e) && (e == Amp || !Contains(s, Code(e)))
    ensures Replace([s[0]] + Escaped(s[1..], es), e) == [s[0]] + Replace(Escaped(s[1..], es), e)
  {
    var rest := Escaped(s[1..], es);
    assert ([s[0]] + rest)[1..] == rest;
    assert Code(e)[1..] == Name(e);
    if Code(e) <= [s[0]] + rest {
      CodeThen(e, [s[0]] + rest);
      assert Name(e) <= rest;
      NamesPlain(e);
      PrefixEscaped(s[1..], es, Name(e));
      PrefixStep(Code(e), s);
      assert false;
    }
  }

  lemma {:induction false} EachTakesBack(s: String, es: seq<Entity>)
    requires forall i, j :: 0 <= i < j < |es| ==> es[i] != es[j]
    requires forall i :: 0 < i < |es| ==> es[i] != Amp
    requires forall f :: f in es && f != Amp ==> !Contains(s, Code(f))
    ensures ReplaceEach(Escaped(s, es), es) == s
    decreases |es|
  {
    if es == [] {
      NotEscaped(s);
    } else {
      assert es == [es[0]] + es[1..];
      PassTakesBack(s, es[0], es[1..]);
      EachTakesBack(s, es[1..]);
    }
  }

  lemma {:induction false} NotEscaped(s: String)
    ensures Escaped(s, []) == s
    decreases |s|
  {
    if s != [] {
      NotEscaped(s[1..]);
    }
  }

  /** Unescaping takes escaping back if and only if the text had none of the four other entities to begin with: those
      are unescaped a second time. */
  lemma RoundTripExact(s: String)
    ensures Unescape(Escape(s)) == s <==> forall f :: f != Amp ==> !Contains(s, Code(f))
  {
    if forall f :: f != Amp ==> !Contains(s, Code(f)) {
      EachTakesBack(s, PASSES);
    }
    if Unescape(Escape(s)) == s {
      forall f | f != Amp ensures !Contains(s, Code(f)) {
        UnescapedHasNone(Escape(s), f);
      }
    }
  }

  // ---- which character each entity is ----

  lemma AllPlain(b: String, e: Entity)
    requires Plain(b)
    ensures Replace(b, e) == b
  {
    assert b + [] == b;
    PlainStays(b, [], e);
  }

  lemma Associate<T>(a: seq<T>, b: seq<T>, c: seq<T>)
    ensures a + b + c == a + (b + c)
  {
  }

  lemma OtherPass(a: String, f: Entity, b: String, e: Entity)
    requires Plain(a) && Plain(b) && e != f
    ensures Replace(a + Code(f) + b, e) == a + Code(f) + b
  {
    Associate(a, Code(f), b);
    PlainStays(a, Code(f) + b, e);
    CodeStays(e, f, b);
    AllPlain(b, e);
  }

  lemma OwnPass(a: String, f: Entity, b: String)
    requires Plain(a) && Plain(b)
    ensures Replace(a + Code(f) + b, f) == a + [Meaning(f)] + b
  {
    Associate(a, Code(f), b);
    Associate(a, [Meaning(f)], b);
    PlainStays(a, Code(f) + b, f);
    AllPlain(b, f);
    assert (Code(f) + b)[|Code(f)|..] == b;
  }

  lemma {:induction false} EachReads(a: String, f: Entity, b: String, es: seq<Entity>)
    requires Plain(a) && Plain(b) && f in es && f != Amp
    ensures ReplaceEach(a + Code(f) + b, es) == a + [Meaning(f)] + b
    decreases |es|
  {
    if es[0] == f {
      OwnPass(a, f, b);
      EachPlain(a + [Meaning(f)] + b, es[1..]);
    } else {
      OtherPass(a, f, b, es[0]);
      EachReads(a, f, b, es[1..]);
    }
  }

  lemma {:induction false} EachLeavesLone(a: String, b: String, es: seq<Entity>)
    requires Plain(a) && Plain(b) && forall e :: e in es ==> !(Name(e) <= b)
    ensures ReplaceEach(a + [AMPERSAND] + b, es) == a + [AMPERSAND] + b
    decreases |es|
  {
    if es != [] {
      var e, s := es[0], [AMPERSAND] + b;
      assert e in es && s[1..] == b;
      if Code(e) <= s {
        CodeThen(e, s);
        assert false;
      }
      Associate(a, [AMPERSAND], b);
      PlainStays(a, s, e);
      AllPlain(b, e);
      EachLeavesLone(a, b, es[1..]);
    }
  }

  /** Between plain texts each entity becomes its character; the one for the ampersand, which is read first, if names
      of the others do not follow it. */
  lemma EntitiesExact(a: String, b: String)
    requires Plain(a) && Plain(b)
    ensures Unescape(a + [0x26, 0x6c, 0x74, 0x3b] + b) == a + [0x3c] + b
    ensures Unescape(a + [0x26, 0x67, 0x74, 0x3b] + b) == a + [0x3e] + b
    ensures Unescape(a + [0x26, 0x61, 0x70, 0x6f, 0x73, 0x3b] + b) == a + [0x27] + b
    ensures Unescape(a + [0x26, 0x71, 0x75, 0x6f, 0x74, 0x3b] + b) == a + [0x22] + b
    ensures (forall e :: e != Amp ==> !(Name(e) <= b)) ==>
              Unescape(a + [0x26, 0x61, 0x6d, 0x70, 0x3b] + b) == a + [0x26] + b
  {
    assert Code(Lt) == [0x26, 0x6c, 0x74, 0x3b] && Code(Gt) == [0x26, 0x67, 0x74, 0x3b];
    assert Code(Apos) == [0x26, 0x61, 0x70, 0x6f, 0x73, 0x3b];
    assert Code(Quot) == [0x26, 0x71, 0x75, 0x6f, 0x74, 0x3b];
    forall f | f != Amp ensures Unescape(a + Code(f) + b) == a + [Meaning(f)] + b {
      EachReads(a, f, b, PASSES);
    }
    if forall e :: e != Amp ==> !(Name(e) <= b) {
      AmpRead(a, b);
    }
  }

  lemma AmpRead(a: String, b: String)
    requires Plain(a) && Plain(b) && forall e :: e != Amp ==> !(Name(e) <= b)
    ensures Unescape(a + [0x26, 0x61, 0x6d, 0x70, 0x3b] + b) == a + [0x26] + b
  {
    assert Code(Amp) == [0x26, 0x61, 0x6d, 0x70, 0x3b];
    OwnPass(a, Amp, b);
    EachLeavesLone(a, b, PASSES[1..]);
  }
}
