/** Text sniffing of the first-match detector (`getFileTypeFromTextContent`,
    lib/mimetics.js) and the regular expressions it applies.

    The fragment modelled here is `/^\s*(A|B|...)/` with or without the `i`
    flag, where each alternative is a concatenation of literal text, `\s`,
    `\w`, `\d` or `.` repeated with `*` or `+`, and `$`. It is modelled
    exactly; `content.match(pattern)` is truthy exactly when some way of
    matching exists, which is what the existential definitions below say.
    Most patterns of lib/types.js are in the fragment as written; the `xml`,
    `h` and `md` patterns are rewritten into it in module `FileTypes`, each
    into a pattern that matches the same strings. */
module Patterns {
  import opened Tables
  import opened Constants

  datatype CharClass = Space | Word | Digit | NotLineTerminator

  /** `Text(w)` is the literal `w`; `Star(k)` is `k*`; `Plus(k)` is `k+`;
      `End` is `$` (end of input, the `m` flag being absent). */
  datatype Atom = Text(w: string) | Star(cls: CharClass) | Plus(cls: CharClass) | End

  /** `/^\s*(alts[0]|alts[1]|...)/`, with the `i` flag when `ignoreCase`. */
  datatype Pattern = Pattern(alts: seq<seq<Atom>>, ignoreCase: bool)

  /** `\s`: the WhiteSpace and LineTerminator characters of ECMAScript. */
  predicate IsSpace(c: char)
  {
    c == '\t' || c == '\n' || c == '\U{B}' || c == '\U{C}' || c == '\r' || c == ' '
    || c == '\U{A0}' || c == '\U{1680}' || ('\U{2000}' <= c <= '\U{200A}')
    || c == '\U{2028}' || c == '\U{2029}' || c == '\U{202F}' || c == '\U{205F}'
    || c == '\U{3000}' || c == '\U{FEFF}'
  }

  predicate IsLineTerminator(c: char)
  {
    c == '\n' || c == '\r' || c == '\U{2028}' || c == '\U{2029}'
  }

  predicate InClass(c: char, k: CharClass)
  {
    match k
    case Space => IsSpace(c)
    case Word => ('a' <= c <= 'z') || ('A' <= c <= 'Z') || ('0' <= c <= '9') || c == '_'
    case Digit => '0' <= c <= '9'
    case NotLineTerminator => !IsLineTerminator(c)
  }

  /** Case folding of a regular expression without the `u` flag: a character
      outside ASCII never folds onto an ASCII one, so for the ASCII literals
      of the built-in patterns folding is ASCII upper-casing. */
  function Upper(c: char): char
  {
    if 'a' <= c <= 'z' then (c as int - 32) as char else c
  }

  predicate CharEq(c: char, p: char, ignoreCase: bool)
  {
    if ignoreCase then Upper(c) == Upper(p) else c == p
  }

  /** `s` begins with the literal `w`. */
  predicate StartsWithText(s: string, w: string, ignoreCase: bool)
  {
    |w| <= |s| && forall i :: 0 <= i < |w| ==> CharEq(s[i], w[i], ignoreCase)
  }

  /** The atoms match some prefix of `s`. */
  predicate MatchAtoms(atoms: seq<Atom>, s: string, ignoreCase: bool)
    decreases |s|, |atoms|
  {
    if atoms == [] then true
    else match atoms[0]
      case Text(w) =>
        StartsWithText(s, w, ignoreCase) && MatchAtoms(atoms[1..], s[|w|..], ignoreCase)
      case Star(k) =>
        MatchAtoms(atoms[1..], s, ignoreCase)
        || (|s| > 0 && InClass(s[0], k) && MatchAtoms(atoms, s[1..], ignoreCase))
      case Plus(k) =>
        |s| > 0 && InClass(s[0], k) && MatchAtoms([Star(k)] + atoms[1..], s[1..], ignoreCase)
      case End =>
        s == [] && MatchAtoms(atoms[1..], s, ignoreCase)
  }

  /** Some alternative matches a prefix of `s`. */
  predicate AltsMatch(alts: seq<seq<Atom>>, s: string, ignoreCase: bool)
  {
    exists a :: 0 <= a < |alts| && MatchAtoms(alts[a], s, ignoreCase)
  }

  /** `content.match(pattern)`: after some run of leading whitespace, some
      alternative matches. */
  predicate Matches(p: Pattern, s: string)
    decreases |s|
  {
    AltsMatch(p.alts, s, p.ignoreCase)
    || (|s| > 0 && IsSpace(s[0]) && Matches(p, s[1..]))
  }

  /** `s` without its leading whitespace. */
  function TrimStart(s: string): (r: string)
    ensures |r| <= |s| && r == s[|s| - |r|..]
    ensures r == [] || !IsSpace(r[0])
    ensures forall i :: 0 <= i < |s| - |r| ==> IsSpace(s[i])
  {
    if |s| > 0 && IsSpace(s[0]) then TrimStart(s[1..]) else s
  }

  /** An alternative that cannot begin with whitespace (it begins with a
      visible ASCII character, a word character or a digit), so that `^\s*`
      always consumes all of the leading whitespace before it. */
  predicate StartsSolid(alt: seq<Atom>)
  {
    |alt| > 0 &&
    match alt[0]
    case Text(w) => |w| > 0 && '!' <= w[0] <= '~'
    case Plus(k) => k == Word || k == Digit
    case Star(_) => false
    case End => false
  }

  predicate WellFormed(p: Pattern)
  {
    forall a :: 0 <= a < |p.alts| ==> StartsSolid(p.alts[a])
  }

  function Matcher(s: string): Pattern -> bool
  {
    p => Matches(p, s)
  }

  /** What `getFileTypeFromTextContent` returns for the decoded text: the key
      of the first pattern that matches, or the default. */
  function TextType(types: Table<Pattern>, content: string): string
  {
    match FirstWhere(types, Matcher(content))
    case Some(i) => types[i].0
    case None => DEFAULT_FILE_TYPE
  }

  /** A solid alternative never matches text that begins with whitespace. */
  lemma SolidRejectsSpace(alt: seq<Atom>, s: string, ignoreCase: bool)
    requires StartsSolid(alt) && |s| > 0 && IsSpace(s[0])
    ensures !MatchAtoms(alt, s, ignoreCase)
  {
  }

  /** With solid alternatives, `^\s*(...)` matches exactly when the
      alternatives match the text stripped of its leading whitespace. */
  lemma {:induction false} MatchesTrimmed(p: Pattern, s: string)
    requires WellFormed(p)
    ensures Matches(p, s) <==> AltsMatch(p.alts, TrimStart(s), p.ignoreCase)
    decreases |s|
  {
    if |s| > 0 && IsSpace(s[0]) {
      forall a | 0 <= a < |p.alts| ensures !MatchAtoms(p.alts[a], s, p.ignoreCase) {
        SolidRejectsSpace(p.alts[a], s, p.ignoreCase);
      }
      MatchesTrimmed(p, s[1..]);
    }
  }

  /** Whatever the pattern, `^\s*` may skip all of the leading whitespace. */
  lemma {:induction false} MatchesAfterSpaces(p: Pattern, s: string)
    requires AltsMatch(p.alts, TrimStart(s), p.ignoreCase)
    ensures Matches(p, s)
    decreases |s|
  {
    if |s| > 0 && IsSpace(s[0]) {
      MatchesAfterSpaces(p, s[1..]);
    }
  }

  /** Leading whitespace never changes whether a pattern matches. */
  lemma LeadingSpaceIrrelevant(p: Pattern, ws: string, s: string)
    requires WellFormed(p)
    requires forall i :: 0 <= i < |ws| ==> IsSpace(ws[i])
    ensures Matches(p, ws + s) <==> Matches(p, s)
  {
    TrimAfterSpaces(ws, s);
    MatchesTrimmed(p, ws + s);
    MatchesTrimmed(p, s);
  }

  lemma {:induction false} TrimAfterSpaces(ws: string, s: string)
    requires forall i :: 0 <= i < |ws| ==> IsSpace(ws[i])
    ensures TrimStart(ws + s) == TrimStart(s)
    decreases |ws|
  {
    if ws == [] {
      assert ws + s == s;
    } else {
      assert (ws + s)[0] == ws[0];
      assert (ws + s)[1..] == ws[1..] + s;
      TrimAfterSpaces(ws[1..], s);
    }
  }

  /** Leading whitespace never changes the sniffed type, provided every
      pattern of the table is well formed. */
  lemma TextTypeIgnoresLeadingSpace(types: Table<Pattern>, ws: string, s: string)
    requires forall j :: 0 <= j < |types| ==> WellFormed(types[j].1)
    requires forall i :: 0 <= i < |ws| ==> IsSpace(ws[i])
    ensures TextType(types, ws + s) == TextType(types, s)
  {
    forall j | 0 <= j < |types|
      ensures Matcher(ws + s)(types[j].1) == Matcher(s)(types[j].1)
    {
      LeadingSpaceIrrelevant(types[j].1, ws, s);
    }
    FirstWhereSame(types, Matcher(ws + s), Matcher(s));
  }

  /** An alternative that starts with a literal matches only text that
      starts with it. */
  lemma FirstTextAtom(alt: seq<Atom>, w: string, t: string, ignoreCase: bool)
    requires |alt| > 0 && alt[0] == Text(w) && MatchAtoms(alt, t, ignoreCase)
    ensures StartsWithText(t, w, ignoreCase)
  {
  }

  /** A pattern all of whose alternatives begin with the literal `w` matches
      only text whose first non-blank characters are `w`. */
  lemma AltsStartWith(p: Pattern, w: string, s: string)
    requires WellFormed(p)
    requires forall a :: 0 <= a < |p.alts| ==> |p.alts[a]| > 0 && p.alts[a][0] == Text(w)
    requires Matches(p, s)
    ensures StartsWithText(TrimStart(s), w, p.ignoreCase)
  {
    MatchesTrimmed(p, s);
    var a :| 0 <= a < |p.alts| && MatchAtoms(p.alts[a], TrimStart(s), p.ignoreCase);
    FirstTextAtom(p.alts[a], w, TrimStart(s), p.ignoreCase);
  }

  /** The sniffed type is always the default or a key of the table. */
  lemma TextTypeIsKey(types: Table<Pattern>, content: string)
    ensures TextType(types, content) == DEFAULT_FILE_TYPE
            || exists i :: 0 <= i < |types| && types[i].0 == TextType(types, content)
  {
    match FirstWhere(types, Matcher(content))
    case None =>
    case Some(i) => assert types[i].0 == TextType(types, content);
  }

  /** The sniffed type is the key of a matching pattern with no matching
      pattern before it, or the default when no pattern matches. */
  lemma TextTypeSpec(types: Table<Pattern>, content: string)
    ensures (forall j :: 0 <= j < |types| ==> !Matches(types[j].1, content))
            ==> TextType(types, content) == DEFAULT_FILE_TYPE
    ensures forall i :: 0 <= i < |types| && Matches(types[i].1, content)
                        && (forall j :: 0 <= j < i ==> !Matches(types[j].1, content))
                        ==> TextType(types, content) == types[i].0
  {
    forall i | 0 <= i < |types| && Matches(types[i].1, content)
               && (forall j :: 0 <= j < i ==> !Matches(types[j].1, content))
      ensures TextType(types, content) == types[i].0
    {
      TextTypeAt(types, content, i);
    }
  }

  /** An alternative that visibly fails at the start of `t`: its leading
      literal is not there, or its leading class does not hold. */
  predicate AltRejects(alt: seq<Atom>, t: string, ignoreCase: bool)
  {
    |alt| > 0 &&
    match alt[0]
    case Text(w) => !StartsWithText(t, w, ignoreCase)
    case Plus(k) => |t| == 0 || !InClass(t[0], k)
    case Star(_) => false
    case End => false
  }

  predicate Rejects(p: Pattern, t: string)
  {
    forall a :: 0 <= a < |p.alts| ==> AltRejects(p.alts[a], t, p.ignoreCase)
  }

  lemma AltRejectsNoMatch(alt: seq<Atom>, t: string, ignoreCase: bool)
    requires AltRejects(alt, t, ignoreCase)
    ensures !MatchAtoms(alt, t, ignoreCase)
  {
  }

  /** A pattern all of whose alternatives fail at the first non-blank
      character does not match. */
  lemma RejectsNoMatch(p: Pattern, s: string)
    requires WellFormed(p) && Rejects(p, TrimStart(s))
    ensures !Matches(p, s)
  {
    MatchesTrimmed(p, s);
    forall a | 0 <= a < |p.alts| ensures !MatchAtoms(p.alts[a], TrimStart(s), p.ignoreCase) {
      AltRejectsNoMatch(p.alts[a], TrimStart(s), p.ignoreCase);
    }
  }

  /** A one-literal alternative matches text that begins with the literal. */
  lemma LiteralAlt(alts: seq<seq<Atom>>, a: nat, w: string, t: string, ignoreCase: bool)
    requires a < |alts| && alts[a] == [Text(w)] && StartsWithText(t, w, ignoreCase)
    ensures AltsMatch(alts, t, ignoreCase)
  {
    assert MatchAtoms(alts[a], t, ignoreCase);
  }

  /** The sniffed type is entry `i`'s key when pattern `i` matches and no
      earlier pattern does; later patterns are ignored. */
  lemma TextTypeAt(types: Table<Pattern>, content: string, i: nat)
    requires i < |types| && Matches(types[i].1, content)
    requires forall j :: 0 <= j < i ==> !Matches(types[j].1, content)
    ensures TextType(types, content) == types[i].0
  {
    FirstWhereAt(types, Matcher(content), i);
  }

  /** `TextTypeAt` on the text stripped of its leading whitespace: when the
      earlier patterns visibly fail there and pattern `i` matches there,
      pattern `i` decides. */
  lemma SniffedAt(types: Table<Pattern>, s: string, i: nat)
    requires i < |types|
    requires forall j :: 0 <= j <= i ==> WellFormed(types[j].1)
    requires forall j :: 0 <= j < i ==> Rejects(types[j].1, TrimStart(s))
    requires AltsMatch(types[i].1.alts, TrimStart(s), types[i].1.ignoreCase)
    ensures TextType(types, s) == types[i].0
  {
    forall j | 0 <= j < i ensures !Matches(types[j].1, s) {
      RejectsNoMatch(types[j].1, s);
    }
    MatchesTrimmed(types[i].1, s);
    TextTypeAt(types, s, i);
  }

  /** A key all of whose patterns fail on the text is not the sniffed type. */
  lemma KeyNotSniffed(types: Table<Pattern>, s: string, k: string, p: Pattern)
    requires k != DEFAULT_FILE_TYPE
    requires forall m :: 0 <= m < |types| && types[m].0 == k ==> types[m].1 == p
    requires !Matches(p, s)
    ensures TextType(types, s) != k
  {
  }

  /** When every alternative of pattern `j` occurs, under the same flags, in
      an earlier pattern, each text that pattern `j` matches is matched by an
      earlier pattern: the one holding the alternative that matched, after
      the same leading whitespace. */
  lemma {:induction false} CoveringMatch(types: Table<Pattern>, j: nat, s: string) returns (i: nat)
    requires j < |types|
    requires forall a :: 0 <= a < |types[j].1.alts| ==>
               exists i, b :: 0 <= i < j && 0 <= b < |types[i].1.alts|
                              && types[i].1.ignoreCase == types[j].1.ignoreCase
                              && types[i].1.alts[b] == types[j].1.alts[a]
    requires Matches(types[j].1, s)
    ensures i < j && Matches(types[i].1, s)
    decreases |s|
  {
    var p := types[j].1;
    if AltsMatch(p.alts, s, p.ignoreCase) {
      var a :| 0 <= a < |p.alts| && MatchAtoms(p.alts[a], s, p.ignoreCase);
      var b;
      i, b :| 0 <= i < j && 0 <= b < |types[i].1.alts|
              && types[i].1.ignoreCase == p.ignoreCase
              && types[i].1.alts[b] == p.alts[a];
      assert MatchAtoms(types[i].1.alts[b], s, types[i].1.ignoreCase);
    } else {
      i := CoveringMatch(types, j, s[1..]);
    }
  }

  /** A pattern each alternative of which already appears, under the same
      flags, in some earlier pattern of the table can never decide the sniffed
      type: the earlier pattern matches first. */
  lemma CoveredNeverFirst(types: Table<Pattern>, j: nat, s: string)
    requires j < |types| && types[j].0 != DEFAULT_FILE_TYPE
    requires forall m :: 0 <= m < |types| && types[m].0 == types[j].0 ==> m == j
    requires forall a :: 0 <= a < |types[j].1.alts| ==>
               exists i, b :: 0 <= i < j && 0 <= b < |types[i].1.alts|
                              && types[i].1.ignoreCase == types[j].1.ignoreCase
                              && types[i].1.alts[b] == types[j].1.alts[a]
    ensures TextType(types, s) != types[j].0
  {
    var m := Matcher(s);
    if Matches(types[j].1, s) {
      var i := CoveringMatch(types, j, s);
      assert m(types[j].1) ==> m(types[i].1);
      ShadowedKey(types, m, i, j);
    } else {
      assert !m(types[j].1);
    }
  }
}
