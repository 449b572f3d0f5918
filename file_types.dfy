/** The built-in text patterns (lib/types.js) and what first-match sniffing
    makes of them. */
module FileTypes {
  import opened Tables
  import opened Constants
  import opened Patterns

  // One constant per entry of lib/types.js. Each is `/^\s*(...)/`; a pattern
  // without a group is an alternation of one. Three patterns use constructs
  // outside that fragment and are rewritten into it, matching the same
  // strings: the optional `<` of `<?xml` (xml) becomes the alternatives `<xml`
  // and `xml`; the `#\s*` that h puts before its group is copied into both
  // alternatives; and `#{1,6}` (md) becomes six alternatives with one to six
  // `#`.
  const PhpPattern: Pattern := Pattern([[Text("<?php")]], true)
  const JsPattern: Pattern := Pattern([[Text("import")], [Text("const")], [Text("let")], [Text("var")], [Text("function")]], true)
  const HtmlPattern: Pattern := Pattern([[Text("<!DOCTYPE"), Plus(Space), Text("html")], [Text("<html")]], true)
  const ShPattern: Pattern := Pattern([[Text("#!")]], false)
  const RbPattern: Pattern := Pattern([[Text("class")], [Text("module")], [Text("require")]], true)
  const PyPattern: Pattern := Pattern([[Text("def")], [Text("class")], [Text("import")]], true)
  const JavaPattern: Pattern := Pattern([[Text("package")], [Text("import")]], true)
  const PlPattern: Pattern := Pattern([[Text("use")], [Text("package")], [Text("my")]], true)
  const XmlPattern: Pattern := Pattern([[Text("<xml")], [Text("xml")]], true)
  const CPattern: Pattern := Pattern([[Text("/*")], [Text("*/")], [Text("*")], [Text("#")]], false)
  const CppPattern: Pattern := Pattern([[Text("//")], [Text("#")]], false)
  const CsPattern: Pattern := Pattern([[Text("public")], [Text("private")], [Text("class")], [Text("import")]], true)
  const VbPattern: Pattern := Pattern([[Text("using")], [Text("namespace")], [Text("public")]], true)
  const SwiftPattern: Pattern := Pattern([[Text("@")], [Text("//")]], false)
  const JsonPattern: Pattern := Pattern([[Text("{"), Star(Space), Text("\"name\"")]], false)
  const PemPattern: Pattern := Pattern([[Text("BEGIN")], [Text("END")]], false)
  const PsPattern: Pattern := Pattern([[Text("%!")]], false)
  const ConfPattern: Pattern := Pattern([[Text("%"), Plus(Word), Star(Space), Text("=")]], false)
  const IniPattern: Pattern := Pattern([[Text(";"), Star(Space), Text("module"), Star(Space), Text("=")]], false)
  const BatPattern: Pattern := Pattern([[Text("#!")]], false)
  const HPattern: Pattern := Pattern([[Text("#"), Star(Space), Text("include")], [Text("#"), Star(Space), Text("define")]], true)
  const MdPattern: Pattern := Pattern([
                [Text("#"), Plus(Space), Plus(Word)],
                [Text("##"), Plus(Space), Plus(Word)],
                [Text("###"), Plus(Space), Plus(Word)],
                [Text("####"), Plus(Space), Plus(Word)],
                [Text("#####"), Plus(Space), Plus(Word)],
                [Text("######"), Plus(Space), Plus(Word)],
                [Text("*"), Plus(Space), Plus(Word)],
                [Text("-"), Plus(Space), Plus(Word)],
                [Plus(Digit), Text("."), Plus(Space), Plus(Word)],
                [Text("["), Plus(NotLineTerminator), Text("]("), Text("http"), Plus(NotLineTerminator)]], true)
  const YmlPattern: Pattern := Pattern([[Text("---"), Star(Space), End]], true)
  const SqlPattern: Pattern := Pattern([[Text("SELECT")], [Text("FROM")], [Text("INSERT"), Plus(Space), Text("INTO")],
                              [Text("UPDATE")], [Text("DELETE")], [Text("CREATE"), Plus(Space), Text("TABLE")]], true)
  const TexPattern: Pattern := Pattern([[Text("\\documentclass")], [Text("\\begin")], [Text("\\end")]], true)
  const RPattern: Pattern := Pattern([[Text("library")], [Text("function")], [Text("if")], [Text("else")], [Text("for")], [Text("while")]], true)
  const GoPattern: Pattern := Pattern([[Text("package")], [Text("import")], [Text("func")], [Text("var")], [Text("const")]], true)
  const GroovyPattern: Pattern := Pattern([[Text("class")], [Text("def")], [Text("if")], [Text("else")], [Text("for")], [Text("while")]], true)
  const KtPattern: Pattern := Pattern([[Text("fun")], [Text("val")], [Text("var")], [Text("class")], [Text("import")]], true)
  const RsPattern: Pattern := Pattern([[Text("fn")], [Text("struct")], [Text("enum")], [Text("impl")], [Text("use")]], true)
  const TsPattern: Pattern := Pattern([[Text("interface")], [Text("type")], [Text("function")], [Text("const")], [Text("let")],
                            [Text("var")], [Text("import")], [Text("export")]], true)

  /** lib/types.js, in declaration order. */
  const FileTypes: Table<Pattern> := [
    /*  0 */ ("php", PhpPattern),
    /*  1 */ ("js", JsPattern),
    /*  2 */ ("html", HtmlPattern),
    /*  3 */ ("sh", ShPattern),
    /*  4 */ ("rb", RbPattern),
    /*  5 */ ("py", PyPattern),
    /*  6 */ ("java", JavaPattern),
    /*  7 */ ("pl", PlPattern),
    /*  8 */ ("xml", XmlPattern),
    /*  9 */ ("c", CPattern),
    /* 10 */ ("cpp", CppPattern),
    /* 11 */ ("cs", CsPattern),
    /* 12 */ ("vb", VbPattern),
    /* 13 */ ("swift", SwiftPattern),
    /* 14 */ ("json", JsonPattern),
    /* 15 */ ("pem", PemPattern),
    /* 16 */ ("ps", PsPattern),
    /* 17 */ ("conf", ConfPattern),
    /* 18 */ ("ini", IniPattern),
    /* 19 */ ("bat", BatPattern),
    /* 20 */ ("h", HPattern),
    /* 21 */ ("md", MdPattern),
    /* 22 */ ("yml", YmlPattern),
    /* 23 */ ("sql", SqlPattern),
    /* 24 */ ("tex", TexPattern),
    /* 25 */ ("r", RPattern),
    /* 26 */ ("go", GoPattern),
    /* 27 */ ("groovy", GroovyPattern),
    /* 28 */ ("kt", KtPattern),
    /* 29 */ ("rs", RsPattern),
    /* 30 */ ("ts", TsPattern)
  ]

  lemma WellFormed0To8()
    ensures WellFormed(PhpPattern) && WellFormed(JsPattern) && WellFormed(HtmlPattern) && WellFormed(ShPattern) && WellFormed(RbPattern) && WellFormed(PyPattern) && WellFormed(JavaPattern) && WellFormed(PlPattern)
  {
  }

  lemma WellFormed8To16()
    ensures WellFormed(XmlPattern) && WellFormed(CPattern) && WellFormed(CppPattern) && WellFormed(CsPattern) && WellFormed(VbPattern) && WellFormed(SwiftPattern) && WellFormed(JsonPattern) && WellFormed(PemPattern)
  {
  }

  lemma WellFormed16To21()
    ensures WellFormed(PsPattern) && WellFormed(ConfPattern) && WellFormed(IniPattern) && WellFormed(BatPattern) && WellFormed(HPattern)
  {
  }

  lemma WellFormed21To22()
    ensures WellFormed(MdPattern)
  {
  }

  lemma WellFormed22To27()
    ensures WellFormed(YmlPattern) && WellFormed(SqlPattern) && WellFormed(TexPattern) && WellFormed(RPattern) && WellFormed(GoPattern)
  {
  }

  lemma WellFormed27To31()
    ensures WellFormed(GroovyPattern) && WellFormed(KtPattern) && WellFormed(RsPattern) && WellFormed(TsPattern)
  {
  }

  /** Every built-in alternative begins with a visible character that `\s`
      cannot match, so the leading `^\s*` always swallows all leading
      whitespace. */
  lemma FileTypesWellFormed()
    ensures |FileTypes| == 31
    ensures forall j :: 0 <= j < |FileTypes| ==> WellFormed(FileTypes[j].1)
  {
    WellFormed0To8();
    WellFormed8To16();
    WellFormed16To21();
    WellFormed21To22();
    WellFormed22To27();
    WellFormed27To31();
  }

  lemma FileKeysDistinct0To10()
    ensures forall j, m :: 0 <= j < 10 && 0 <= m < j ==> FileTypes[m].0 != FileTypes[j].0
  {
  }

  lemma FileKeysDistinct10To20()
    ensures forall j, m :: 10 <= j < 20 && 0 <= m < j ==> FileTypes[m].0 != FileTypes[j].0
  {
  }

  lemma FileKeysDistinct20To25()
    ensures forall j, m :: 20 <= j < 25 && 0 <= m < j ==> FileTypes[m].0 != FileTypes[j].0
  {
  }

  lemma FileKeysDistinct25To31()
    ensures forall j, m :: 25 <= j < 31 && 0 <= m < j ==> FileTypes[m].0 != FileTypes[j].0
  {
  }

  /** The table is an object literal, so its keys are distinct. */
  lemma FileKeysUnique()
    ensures UniqueKeys(FileTypes)
  {
    FileKeysDistinct0To10();
    FileKeysDistinct10To20();
    FileKeysDistinct20To25();
    FileKeysDistinct25To31();
  }

  lemma FileKeyOnlyAt(j: nat)
    requires j < |FileTypes|
    ensures forall m :: 0 <= m < |FileTypes| && FileTypes[m].0 == FileTypes[j].0 ==> m == j
  {
    FileKeysUnique();
  }

  /** The first eleven built-in entries, `FileTypes[..11]`, as
      `FileTypesKeepLeading` proves. They are written out rather than sliced
      so that the lemmas about them see each entry directly: with the slice,
      every such lemma first has to unfold the whole 31-entry table, which
      makes the sniffing lemmas below two to twelve times as costly. */
  const Leading: Table<Pattern> := [
    ("php", PhpPattern), ("js", JsPattern), ("html", HtmlPattern), ("sh", ShPattern),
    ("rb", RbPattern), ("py", PyPattern), ("java", JavaPattern), ("pl", PlPattern),
    ("xml", XmlPattern), ("c", CPattern), ("cpp", CppPattern)
  ]

  /** A table whose first `n` entries are the built-in ones: the built-in
      table itself, and any table that `addFileType` grew with new keys or
      with keys past the first `n`. */
  predicate KeepsLeading(types: Table<Pattern>, n: nat)
  {
    n <= |Leading| && n <= |types| && types[..n] == Leading[..n]
  }

  /** `Leading` is the first eleven entries of the built-in table. */
  lemma FileTypesKeepLeading()
    ensures KeepsLeading(FileTypes, |Leading|)
    ensures FileTypes[..11] == Leading
  {
  }

  lemma KeepsFewer(types: Table<Pattern>, n: nat, m: nat)
    requires KeepsLeading(types, n) && m <= n
    ensures KeepsLeading(types, m)
  {
    assert types[..m] == types[..n][..m];
    assert Leading[..m] == Leading[..n][..m];
  }

  lemma LeadingEntries(types: Table<Pattern>, n: nat)
    requires KeepsLeading(types, n)
    ensures forall j :: 0 <= j < n ==> types[j] == Leading[j]
  {
    forall j | 0 <= j < n ensures types[j] == Leading[j] {
      assert types[..n][j] == types[j];
    }
  }

  /** Text that begins with `import` fails the one earlier pattern. */
  lemma RejectedBeforeJs(t: string)
    requires StartsWithText(t, "import", true)
    ensures forall j :: 0 <= j < 1 ==> Rejects(Leading[j].1, t)
  {
    assert Upper(t[0]) == 'I';
  }

  /** Text that begins with `class` fails every pattern before `rb`. */
  lemma RejectedBeforeRb(t: string)
    requires StartsWithText(t, "class", true)
    ensures forall j :: 0 <= j < 4 ==> Rejects(Leading[j].1, t)
  {
    assert Upper(t[0]) == 'C' && Upper(t[1]) == 'L';
  }

  /** Text that begins with `package` fails every pattern before `java`. */
  lemma RejectedBeforeJava(t: string)
    requires StartsWithText(t, "package", true)
    ensures forall j :: 0 <= j < 6 ==> Rejects(Leading[j].1, t)
  {
    assert Upper(t[0]) == 'P';
  }

  /** Text that begins with `//` fails every pattern before `cpp`. */
  lemma RejectedBeforeCpp(t: string)
    requires StartsWithText(t, "//", false)
    ensures forall j :: 0 <= j < 10 ==> Rejects(Leading[j].1, t)
  {
    assert t[0] == '/' && t[1] == '/';
  }

  /** Text that begins with `#` fails every pattern before `sh`. */
  lemma RejectedBeforeSh(t: string)
    requires |t| > 0 && t[0] == '#'
    ensures forall j :: 0 <= j < 3 ==> Rejects(Leading[j].1, t)
  {
  }

  /** Text that begins with `#` but not `#!` fails every pattern before `c`. */
  lemma RejectedBeforeC(t: string)
    requires |t| > 0 && t[0] == '#' && !(|t| > 1 && t[1] == '!')
    ensures forall j :: 0 <= j < 9 ==> Rejects(Leading[j].1, t)
  {
    if |t| > 1 {
      // Mentions `t[1]`: it is the position at which sh's `#!` alternative
      // fails, and naming it lets the verifier instantiate the quantifier of
      // `StartsWithText` there.
      var second := t[1];
    }
  }

  lemma LeadingWellFormed()
    ensures forall j :: 0 <= j < |Leading| ==> WellFormed(Leading[j].1)
  {
    WellFormed0To8();
    WellFormed8To16();
  }

  /** For a table that keeps the first `i + 1` built-in entries: when those
      before `i` visibly fail on the trimmed text and entry `i` matches it,
      entry `i` decides. */
  lemma SniffedAtLeading(types: Table<Pattern>, s: string, i: nat)
    requires i < |Leading| && KeepsLeading(types, i + 1)
    requires forall j :: 0 <= j < i ==> Rejects(Leading[j].1, TrimStart(s))
    requires AltsMatch(Leading[i].1.alts, TrimStart(s), Leading[i].1.ignoreCase)
    ensures TextType(types, s) == Leading[i].0
  {
    LeadingEntries(types, i + 1);
    LeadingWellFormed();
    SniffedAt(types, s, i);
  }

  /** `import`, in any letter case, is sniffed as `js`, never `py`, `java`,
      `cs`, `go`, `kt` or `ts`. */
  lemma ImportIsJs(types: Table<Pattern>, s: string)
    requires KeepsLeading(types, 2)
    requires StartsWithText(TrimStart(s), "import", true)
    ensures TextType(types, s) == "js"
  {
    RejectedBeforeJs(TrimStart(s));
    LiteralAlt(JsPattern.alts, 0, "import", TrimStart(s), true);
    SniffedAtLeading(types, s, 1);
  }

  /** `class`, in any letter case, is sniffed as `rb`, never `py`, `cs`,
      `groovy` or `kt`. */
  lemma ClassIsRb(types: Table<Pattern>, s: string)
    requires KeepsLeading(types, 5)
    requires StartsWithText(TrimStart(s), "class", true)
    ensures TextType(types, s) == "rb"
  {
    RejectedBeforeRb(TrimStart(s));
    LiteralAlt(RbPattern.alts, 0, "class", TrimStart(s), true);
    SniffedAtLeading(types, s, 4);
  }

  /** `package`, in any letter case, is sniffed as `java`, never `pl` or `go`. */
  lemma PackageIsJava(types: Table<Pattern>, s: string)
    requires KeepsLeading(types, 7)
    requires StartsWithText(TrimStart(s), "package", true)
    ensures TextType(types, s) == "java"
  {
    RejectedBeforeJava(TrimStart(s));
    LiteralAlt(JavaPattern.alts, 0, "package", TrimStart(s), true);
    SniffedAtLeading(types, s, 6);
  }

  /** A `//` comment is sniffed as `cpp`, never `swift`. */
  lemma SlashSlashIsCpp(types: Table<Pattern>, s: string)
    requires KeepsLeading(types, 11)
    requires StartsWithText(TrimStart(s), "//", false)
    ensures TextType(types, s) == "cpp"
  {
    RejectedBeforeCpp(TrimStart(s));
    LiteralAlt(CppPattern.alts, 0, "//", TrimStart(s), false);
    SniffedAtLeading(types, s, 10);
  }

  /** A `#!` line is sniffed as `sh`, never `bat`. */
  lemma ShebangIsSh(types: Table<Pattern>, s: string)
    requires KeepsLeading(types, 4)
    requires StartsWithText(TrimStart(s), "#!", false)
    ensures TextType(types, s) == "sh"
  {
    RejectedBeforeSh(TrimStart(s));
    LiteralAlt(ShPattern.alts, 0, "#!", TrimStart(s), false);
    SniffedAtLeading(types, s, 3);
  }

  /** Other text whose first non-blank character is `#` is sniffed as `c`:
      `h`, the `#` of `cpp` and the `#` headings of `md` never get a say. */
  lemma HashIsC(types: Table<Pattern>, s: string)
    requires KeepsLeading(types, 10)
    requires |TrimStart(s)| > 0 && TrimStart(s)[0] == '#'
    requires !(|TrimStart(s)| > 1 && TrimStart(s)[1] == '!')
    ensures TextType(types, s) == "c"
  {
    RejectedBeforeC(TrimStart(s));
    HashStart(TrimStart(s));
    LiteralAlt(CPattern.alts, 3, "#", TrimStart(s), false);
    SniffedAtLeading(types, s, 9);
  }

  /** `h` needs `#` as the first non-blank character. */
  lemma HNeedsHash(s: string)
    ensures Matches(HPattern, s) ==> |TrimStart(s)| > 0 && TrimStart(s)[0] == '#'
  {
    if Matches(HPattern, s) {
      HWellFormed();
      AltsStartWith(HPattern, "#", s);
      assert CharEq(TrimStart(s)[0], "#"[0], true);
    }
  }

  lemma HWellFormed()
    ensures WellFormed(HPattern)
    ensures forall a :: 0 <= a < |HPattern.alts| ==> |HPattern.alts[a]| > 0 && HPattern.alts[a][0] == Text("#")
  {
  }

  /** In any table that keeps the first ten built-in entries, and where every
      `h` entry has the built-in pattern, `h` is never sniffed: text that
      pattern matches begins with `#`, and such text is `sh` or `c`. */
  lemma HNeverSniffed(types: Table<Pattern>, s: string)
    requires KeepsLeading(types, 10)
    requires forall m :: 0 <= m < |types| && types[m].0 == "h" ==> types[m].1 == HPattern
    ensures TextType(types, s) != "h"
  {
    if |TrimStart(s)| > 1 && TrimStart(s)[0] == '#' && TrimStart(s)[1] == '!' {
      ShebangBeforeH(types, s);
    } else if |TrimStart(s)| > 0 && TrimStart(s)[0] == '#' {
      HashIsC(types, s);
    } else {
      HNeedsHash(s);
      KeyNotSniffed(types, s, "h", HPattern);
    }
  }

  /** A `#!` line is `sh` in any table that keeps the first ten entries. */
  lemma ShebangBeforeH(types: Table<Pattern>, s: string)
    requires KeepsLeading(types, 10)
    requires |TrimStart(s)| > 1 && TrimStart(s)[0] == '#' && TrimStart(s)[1] == '!'
    ensures TextType(types, s) == "sh"
  {
    KeepsFewer(types, 10, 4);
    HashBang(TrimStart(s));
    ShebangIsSh(types, s);
  }

  lemma HashStart(t: string)
    requires |t| > 0 && t[0] == '#'
    ensures StartsWithText(t, "#", false)
  {
  }

  lemma HashBang(t: string)
    requires |t| > 1 && t[0] == '#' && t[1] == '!'
    ensures StartsWithText(t, "#!", false)
  {
  }

  /** In any table that keeps the first four built-in entries, and where every
      `bat` entry has the built-in pattern, `bat` is never sniffed: that
      pattern is the pattern of `sh`, which comes first. */
  lemma BatNeverSniffed(types: Table<Pattern>, s: string)
    requires KeepsLeading(types, 4)
    requires forall m :: 0 <= m < |types| && types[m].0 == "bat" ==> types[m].1 == BatPattern
    ensures TextType(types, s) != "bat"
  {
    LeadingEntries(types, 4);
    var m := Matcher(s);
    if m(BatPattern) {
      assert m(types[3].1);
      FirstWhereAtMost(types, m, 3);
    }
  }

  /** Every keyword of `groovy` is already a keyword of `rb`, `py` or `r`. */
  lemma GroovyCovered(s: string)
    ensures Matches(GroovyPattern, s) ==>
              Matches(RbPattern, s) || Matches(PyPattern, s) || Matches(RPattern, s)
  {
    WellFormed27To31();
    var t := TrimStart(s);
    MatchesTrimmed(GroovyPattern, s);
    if AltsMatch(GroovyPattern.alts, t, true) {
      var a :| 0 <= a < 6 && MatchAtoms(GroovyPattern.alts[a], t, true);
      if a == 0 {
        assert RbPattern.alts[0] == GroovyPattern.alts[0];
        MatchesAfterSpaces(RbPattern, s);
      } else if a == 1 {
        assert PyPattern.alts[0] == GroovyPattern.alts[1];
        MatchesAfterSpaces(PyPattern, s);
      } else {
        assert RPattern.alts[a] == GroovyPattern.alts[a];
        MatchesAfterSpaces(RPattern, s);
      }
    }
  }

  /** In any table that keeps the first six built-in entries and the built-in
      `r` entry at position 25, and where every `groovy` entry has the
      built-in pattern and comes later, `groovy` is never sniffed. */
  lemma GroovyNeverSniffed(types: Table<Pattern>, s: string)
    requires KeepsLeading(types, 6) && 25 < |types| && types[25] == ("r", RPattern)
    requires forall m :: 0 <= m < |types| && types[m].0 == "groovy" ==>
               types[m].1 == GroovyPattern && 25 < m
    ensures TextType(types, s) != "groovy"
  {
    LeadingEntries(types, 6);
    var m := Matcher(s);
    if m(GroovyPattern) {
      GroovyCovered(s);
      if m(types[4].1) {
        FirstWhereAtMost(types, m, 4);
      } else if m(types[5].1) {
        FirstWhereAtMost(types, m, 5);
      } else {
        FirstWhereAtMost(types, m, 25);
      }
    }
  }

  lemma FileKeysAre()
    ensures FileTypes[19] == ("bat", BatPattern) && FileTypes[20] == ("h", HPattern)
    ensures FileTypes[25] == ("r", RPattern) && FileTypes[27] == ("groovy", GroovyPattern)
  {
  }

  /** The built-in table meets the conditions above: `bat`, `h` and `groovy`
      are never sniffed from it. */
  lemma FileTypesUnreachable(s: string)
    ensures TextType(FileTypes, s) != "bat"
    ensures TextType(FileTypes, s) != "h"
    ensures TextType(FileTypes, s) != "groovy"
  {
    FileTypesKeepLeading();
    KeepsFewer(FileTypes, 11, 10);
    KeepsFewer(FileTypes, 11, 6);
    KeepsFewer(FileTypes, 11, 4);
    FileKeysAre();
    FileKeyOnlyAt(19);
    FileKeyOnlyAt(20);
    FileKeyOnlyAt(27);
    BatNeverSniffed(FileTypes, s);
    HNeverSniffed(FileTypes, s);
    GroovyNeverSniffed(FileTypes, s);
  }

  /** Leading blanks never change what the built-in table sniffs. */
  lemma FileTypesIgnoreLeadingSpace(ws: string, s: string)
    requires forall i :: 0 <= i < |ws| ==> IsSpace(ws[i])
    ensures TextType(FileTypes, ws + s) == TextType(FileTypes, s)
  {
    FileTypesWellFormed();
    TextTypeIgnoresLeadingSpace(FileTypes, ws, s);
  }

  /** Text that begins with `<?x` fails the first eight patterns ... */
  lemma XmlDeclRejected0To8(t: string)
    requires |t| > 2 && t[0] == '<' && t[1] == '?' && t[2] == 'x'
    ensures forall j :: 0 <= j < 8 ==> Rejects(FileTypes[j].1, t)
  {
  }

  /** ... `xml` itself, whose `<` is optional rather than followed by `?` ... */
  lemma XmlDeclRejected8To16(t: string)
    requires |t| > 2 && t[0] == '<' && t[1] == '?' && t[2] == 'x'
    ensures forall j :: 8 <= j < 16 ==> Rejects(FileTypes[j].1, t)
  {
  }

  /** ... and every later one. */
  lemma XmlDeclRejected16To24(t: string)
    requires |t| > 0 && t[0] == '<'
    ensures forall j :: 16 <= j < 24 ==> Rejects(FileTypes[j].1, t)
  {
  }

  lemma XmlDeclRejected24To31(t: string)
    requires |t| > 0 && t[0] == '<'
    ensures forall j :: 24 <= j < 31 ==> Rejects(FileTypes[j].1, t)
  {
  }

  /** An XML declaration `<?xml ...` matches no built-in pattern and is
      sniffed as the default `txt`: the `xml` pattern is `<?xml`, in which
      `?` makes the `<` optional. */
  lemma XmlDeclarationIsTxt(s: string)
    requires StartsWithText(TrimStart(s), "<?xml", false)
    ensures TextType(FileTypes, s) == DEFAULT_FILE_TYPE
  {
    var t := TrimStart(s);
    assert t[0] == '<' && t[1] == '?' && t[2] == 'x';
    XmlDeclRejected0To8(t);
    XmlDeclRejected8To16(t);
    XmlDeclRejected16To24(t);
    XmlDeclRejected24To31(t);
    FileTypesWellFormed();
    forall j | 0 <= j < |FileTypes| ensures !Matches(FileTypes[j].1, s) {
      RejectsNoMatch(FileTypes[j].1, s);
    }
    TextTypeSpec(FileTypes, s);
  }

  /** No built-in text pattern is keyed by the empty string. */
  lemma FileKeysNonEmpty()
    ensures !HasKey(FileTypes, "")
  {
    assert forall j :: 0 <= j < |FileTypes| ==> |FileTypes[j].0| > 0;
  }
}
