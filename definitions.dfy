/** The definition table of lib/definitions.js: one record per file kind,
    with its extensions, MIME type, binary signature and text pattern. The
    scored detector that reads this table is not part of this model; the
    records, the signature shapes and a prefix matcher for them are. */
module Definitions {
  import opened Tables
  import opened Signatures

  /** One position of a flat signature: an exact byte, or the `'*'`
      wildcard. */
  datatype Token = Byte(value: byte) | Wildcard

  /** The `magic` field: `null`, a flat list of tokens, or a list of
      alternative byte strings. */
  datatype MagicSpec = NoMagic | Flat(tokens: seq<Token>) | AnyOf(alts: seq<seq<byte>>)

  /** The `ext` field: one extension, or a list of them. */
  datatype Ext = One(name: string) | Many(names: seq<string>)

  /** The optional `zipped` field: absent, `true`, or the archive entries
      that identify the format. */
  datatype Zipped = NotZipped | ZipFlag | Entries(paths: seq<string>)

  /** A regular expression literal, kept as its source text and flags. */
  datatype Regex = Regex(source: string, flags: string)

  /** A record; `kind` is the `type` field. */
  datatype Definition = Definition(
    tag: string,
    kind: string,
    ext: Ext,
    mime: string,
    magic: MagicSpec,
    pattern: Option<Regex>,
    zipped: Zipped)

  /** `MAGIC_BYTES.ZIP`: the local file header, the empty archive and the
      spanned archive markers. */
  const ZipHeaders: seq<seq<byte>> := [[0x50, 0x4b, 0x03, 0x04], [0x50, 0x4b, 0x05, 0x06], [0x50, 0x4b, 0x07, 0x08]]

  const ZipMagic: MagicSpec := AnyOf(ZipHeaders)

  /** `MAGIC_BYTES.OFFICE`: the OLE2 compound file header. */
  const OfficeMagic: MagicSpec := Flat([Byte(0xd0), Byte(0xcf), Byte(0x11), Byte(0xe0)])

  /** lib/definitions.js:12-17 */
  const Jpeg: Definition :=
    Definition("image", "jpeg", Many(["jpg", "jpeg"]), "image/jpeg", Flat([Byte(0xff), Byte(0xd8), Byte(0xff)]), None, NotZipped)

  /** lib/definitions.js:18-23 */
  const Png: Definition :=
    Definition("image", "png", One("png"), "image/png", Flat([Byte(0x89), Byte(0x50), Byte(0x4e), Byte(0x47)]), None, NotZipped)

  /** lib/definitions.js:24-29 */
  const Gif87a: Definition :=
    Definition("image", "gif87a", One("gif"), "image/gif", Flat([Byte(0x47), Byte(0x49), Byte(0x46), Byte(0x38), Byte(0x37), Byte(0x61)]), None, NotZipped)

  /** lib/definitions.js:30-35 */
  const Gif89a: Definition :=
    Definition("image", "gif89a", One("gif"), "image/gif", Flat([Byte(0x47), Byte(0x49), Byte(0x46), Byte(0x38), Byte(0x39), Byte(0x61)]), None, NotZipped)

  /** lib/definitions.js:36-41 */
  const TifLittleEndian: Definition :=
    Definition("image", "tif", Many(["tif", "tiff"]), "image/tiff", Flat([Byte(0x49), Byte(0x49), Byte(0x2a), Byte(0x00)]), None, NotZipped)

  /** lib/definitions.js:42-47 */
  const TifBigEndian: Definition :=
    Definition("image", "tif", Many(["tif", "tiff"]), "image/tiff", Flat([Byte(0x4d), Byte(0x4d), Byte(0x00), Byte(0x2a)]), None, NotZipped)

  /** lib/definitions.js:48-53 */
  const Bitmap: Definition :=
    Definition("image", "bitmap", One("bmp"), "image/bmp", Flat([Byte(0x42), Byte(0x4d)]), None, NotZipped)

  /** lib/definitions.js:54-59 */
  const Icon: Definition :=
    Definition("image", "icon", One("ico"), "image/x-icon", Flat([Byte(0x00), Byte(0x00), Byte(0x01), Byte(0x00)]), None, NotZipped)

  const WebpMagic: MagicSpec := Flat([Byte(0x52), Byte(0x49), Byte(0x46), Byte(0x46), Byte(0x57), Byte(0x45), Byte(0x42), Byte(0x50)])

  /** lib/definitions.js:60-65 */
  const Webp: Definition :=
    Definition("image", "webp", One("webp"), "image/webp", WebpMagic, None, NotZipped)

  /** lib/definitions.js:66-71 */
  const Pdf: Definition :=
    Definition("image", "pdf", One("pdf"), "application/pdf", Flat([Byte(0x25), Byte(0x50), Byte(0x44), Byte(0x46)]), None, NotZipped)

  /** lib/definitions.js:72-77 */
  const Svg: Definition :=
    Definition("image", "svg", One("svg"), "image/svg+xml", NoMagic, Some(Regex("^\\s*<\\s*svg[^>]*>", "i")), NotZipped)

  /** lib/definitions.js:79-84 */
  const Mp4: Definition :=
    Definition("video", "mp4", One("mp4"), "video/mp4", Flat([Byte(0x00), Byte(0x00), Byte(0x00), Byte(0x1c), Byte(0x66), Byte(0x74), Byte(0x79), Byte(0x70)]), None, NotZipped)

  /** lib/definitions.js:85-90 */
  const Quicktime: Definition :=
    Definition("video", "quicktime", One("mov"), "video/quicktime", Flat([Byte(0x00), Byte(0x00), Byte(0x00), Byte(0x14), Byte(0x66), Byte(0x74), Byte(0x79), Byte(0x70)]), None, NotZipped)

  const AviMagic: MagicSpec := Flat([Byte(0x52), Byte(0x49), Byte(0x46), Byte(0x46), Byte(0x41), Byte(0x56), Byte(0x49), Byte(0x20)])

  /** lib/definitions.js:91-96 */
  const Avi: Definition :=
    Definition("video", "avi", One("avi"), "video/x-msvideo", AviMagic, None, NotZipped)

  /** lib/definitions.js:97-102 */
  const Mkv: Definition :=
    Definition("video", "mkv", One("mkv"), "video/x-matroska", Flat([Byte(0x1a), Byte(0x45), Byte(0xdf), Byte(0xa3)]), None, NotZipped)

  /** lib/definitions.js:103-108 */
  const Webm: Definition :=
    Definition("video", "webm", One("webm"), "video/webm", Flat([Byte(0x1a), Byte(0x45), Byte(0xdf), Byte(0xa3)]), None, NotZipped)

  /** lib/definitions.js:109-114 */
  const Flv: Definition :=
    Definition("video", "flv", One("flv"), "video/x-flv", Flat([Byte(0x46), Byte(0x4c), Byte(0x56), Byte(0x01)]), None, NotZipped)

  const Mp3Magic: MagicSpec := AnyOf([[0x49, 0x44, 0x33], [0xff, 0xfb], [0xff, 0xf3], [0xff, 0xf2]])

  /** lib/definitions.js:116-126 */
  const Mp3: Definition :=
    Definition("audio", "mp3", One("mp3"), "audio/mpeg", Mp3Magic, None, NotZipped)

  /** lib/definitions.js:127-132 */
  const Ogg: Definition :=
    Definition("audio", "ogg", One("ogg"), "audio/ogg", Flat([Byte(0x4f), Byte(0x67), Byte(0x67), Byte(0x53)]), None, NotZipped)

  const WavMagic: MagicSpec := Flat([Byte(0x52), Byte(0x49), Byte(0x46), Byte(0x46), Wildcard, Wildcard, Wildcard, Wildcard, Byte(0x57), Byte(0x41), Byte(0x56), Byte(0x45)])

  /** lib/definitions.js:133-138 */
  const Wav: Definition :=
    Definition("audio", "wav", One("wav"), "audio/wav", WavMagic, None, NotZipped)

  /** lib/definitions.js:140-146 */
  const Zip: Definition :=
    Definition("compressed", "zip", Many(["zip", "epub"]), "application/zip", ZipMagic, None, ZipFlag)

  /** lib/definitions.js:147-152 */
  const Rar: Definition :=
    Definition("compressed", "rar", One("rar"), "application/x-rar-compressed", Flat([Byte(0x52), Byte(0x61), Byte(0x72), Byte(0x21)]), None, NotZipped)

  /** lib/definitions.js:153-158 */
  const Gzip: Definition :=
    Definition("compressed", "gzip", One("gz"), "application/gzip", Flat([Byte(0x1f), Byte(0x8b)]), None, NotZipped)

  /** lib/definitions.js:159-164 */
  const SevenZip: Definition :=
    Definition("compressed", "7zip", One("7z"), "application/x-7z-compressed", Flat([Byte(0x37), Byte(0x7a), Byte(0xbc), Byte(0xaf)]), None, NotZipped)

  /** lib/definitions.js:165-170 */
  const Tar: Definition :=
    Definition("compressed", "tar", One("tar"), "application/x-tar", NoMagic, None, NotZipped)

  /** lib/definitions.js:172-177 */
  const Doc: Definition :=
    Definition("office", "word", One("doc"), "application/vnd.ms-office", OfficeMagic, None, NotZipped)

  /** lib/definitions.js:178-183 */
  const Xls: Definition :=
    Definition("office", "excel", One("xls"), "application/vnd.ms-office", OfficeMagic, None, NotZipped)

  /** lib/definitions.js:184-189 */
  const Ppt: Definition :=
    Definition("office", "powerpoint", One("ppt"), "application/vnd.ms-office", OfficeMagic, None, NotZipped)

  /** lib/definitions.js:190-196 */
  const Docx: Definition :=
    Definition("office", "word", One("docx"), "application/vnd.openxmlformats-officedocument", ZipMagic, None, Entries(["[Content_Types].xml", "word/document.xml"]))

  /** lib/definitions.js:197-203 */
  const Xlsx: Definition :=
    Definition("office", "excel", One("xlsx"), "application/vnd.openxmlformats-officedocument", ZipMagic, None, Entries(["[Content_Types].xml", "xl/workbook.xml"]))

  /** lib/definitions.js:204-210 */
  const Pptx: Definition :=
    Definition("office", "powerpoint", One("pptx"), "application/vnd.openxmlformats-officedocument", ZipMagic, None, Entries(["[Content_Types].xml", "ppt/presentation.xml"]))

  /** lib/definitions.js:212-217 */
  const Html: Definition :=
    Definition("code", "html", Many(["html", "htm"]), "text/html", NoMagic, Some(Regex("^\\s*(<!DOCTYPE\\s+html|<html)", "i")), NotZipped)

  /** lib/definitions.js:218-223 */
  const Shell: Definition :=
    Definition("code", "shell", One("sh"), "application/x-sh", NoMagic, Some(Regex("^\\s*#\\!", "")), NotZipped)

  /** lib/definitions.js:224-229 */
  const Ruby: Definition :=
    Definition("code", "ruby", One("rb"), "text/x-ruby", NoMagic, Some(Regex("^\\s*(class|module|require)", "i")), NotZipped)

  /** lib/definitions.js:230-235 */
  const Python: Definition :=
    Definition("code", "python", One("py"), "text/x-python", NoMagic, Some(Regex("^\\s*(def|class|import)", "i")), NotZipped)

  /** lib/definitions.js:236-241 */
  const Java: Definition :=
    Definition("code", "java", One("java"), "text/x-java-source", NoMagic, Some(Regex("^\\s*(package|import)", "i")), NotZipped)

  /** lib/definitions.js:242-247 */
  const Css: Definition :=
    Definition("code", "css", One("css"), "text/css", NoMagic, None, NotZipped)

  /** lib/definitions.js:248-253 */
  const Json: Definition :=
    Definition("code", "json", One("json"), "application/json", NoMagic, Some(Regex("^\\s*{\\s*\"name\"", "")), NotZipped)

  /** lib/definitions.js:254-259 */
  const Xml: Definition :=
    Definition("code", "xml", One("xml"), "application/xml", NoMagic, Some(Regex("^\\s*(<?xml)", "i")), NotZipped)

  /** lib/definitions.js:260-265 */
  const Csv: Definition :=
    Definition("code", "csv", One("csv"), "text/csv", NoMagic, None, NotZipped)

  /** lib/definitions.js:266-271 */
  const Javascript: Definition :=
    Definition("code", "javascript", One("js"), "application/javascript", NoMagic, Some(Regex("^\\s*(import|const|let|var|function)", "i")), NotZipped)

  /** lib/definitions.js:272-277 */
  const Php: Definition :=
    Definition("code", "php", One("php"), "application/x-httpd-php", NoMagic, Some(Regex("^\\s*<\\?php", "i")), NotZipped)

  /** lib/definitions.js:278-283 */
  const Yaml: Definition :=
    Definition("code", "yaml", Many(["yml", "yaml"]), "application/x-yaml", NoMagic, Some(Regex("^\\s*---\\s*$", "i")), NotZipped)

  /** lib/definitions.js:284-289 */
  const Sql: Definition :=
    Definition("code", "sql", One("sql"), "application/sql", NoMagic, Some(Regex("^\\s*(SELECT|FROM|INSERT\\s+INTO|UPDATE|DELETE|CREATE\\s+TABLE)", "i")), NotZipped)

  /** lib/definitions.js:290-295 */
  const Go: Definition :=
    Definition("code", "go", One("go"), "text/x-go", NoMagic, Some(Regex("^\\s*(package|import|func|var|const)", "i")), NotZipped)

  /** lib/definitions.js:296-301 */
  const Groovy: Definition :=
    Definition("code", "groovy", One("groovy"), "text/x-groovy", NoMagic, Some(Regex("^\\s*(class|def|if|else|for|while)", "i")), NotZipped)

  /** lib/definitions.js:302-307 */
  const Kotlin: Definition :=
    Definition("code", "kotlin", Many(["kt", "kts"]), "text/x-kotlin", NoMagic, Some(Regex("^\\s*(fun|val|var|class|import)", "i")), NotZipped)

  /** lib/definitions.js:308-313 */
  const Rust: Definition :=
    Definition("code", "rust", One("rs"), "text/x-rust", NoMagic, Some(Regex("^\\s*(fn|struct|enum|impl|use)", "i")), NotZipped)

  /** lib/definitions.js:314-319 */
  const Typescript: Definition :=
    Definition("code", "typescript", One("ts"), "text/x-typescript", NoMagic, Some(Regex("^\\s*(interface|type|function|const|let|var|import|export)", "i")), NotZipped)

  /** lib/definitions.js:320-325 */
  const Swift: Definition :=
    Definition("code", "swift", One("swift"), "text/x-swift", NoMagic, Some(Regex("^\\s*(@|\\/\\/)", "")), NotZipped)

  /** lib/definitions.js:326-331 */
  const Perl: Definition :=
    Definition("code", "perl", One("pl"), "text/x-perl", NoMagic, Some(Regex("^\\s*(use|package|my)", "i")), NotZipped)

  /** lib/definitions.js:332-337 */
  const C: Definition :=
    Definition("code", "c", One("c"), "text/x-csrc", NoMagic, Some(Regex("^\\s*(\\/\\*|\\*\\/|\\*|#)", "")), NotZipped)

  /** lib/definitions.js:338-343 */
  const Cpp: Definition :=
    Definition("code", "cpp", One("cpp"), "text/x-c++src", NoMagic, Some(Regex("^\\s*(\\/\\/|#)", "")), NotZipped)

  /** lib/definitions.js:344-349 */
  const Csharp: Definition :=
    Definition("code", "csharp", One("cs"), "text/x-csharp", NoMagic, Some(Regex("^\\s*(public|private|class|import)", "i")), NotZipped)

  /** lib/definitions.js:350-355 */
  const Visualbasic: Definition :=
    Definition("code", "visualbasic", One("vb"), "text/x-vb", NoMagic, Some(Regex("^\\s*(using|namespace|public)", "i")), NotZipped)

  /** lib/definitions.js:356-361 */
  const Powershell: Definition :=
    Definition("code", "powershell", One("ps"), "application/x-powershell", NoMagic, Some(Regex("^\\s*%!", "")), NotZipped)

  /** lib/definitions.js:362-367 */
  const Configuration: Definition :=
    Definition("code", "configuration", One("conf"), "text/plain", NoMagic, Some(Regex("^\\s*%\\w+\\s*=", "")), NotZipped)

  /** lib/definitions.js:368-373 */
  const Ini: Definition :=
    Definition("code", "ini", One("ini"), "text/plain", NoMagic, Some(Regex("^\\s*;\\s*module\\s*=", "")), NotZipped)

  /** lib/definitions.js:374-379 */
  const Batch: Definition :=
    Definition("code", "batch", One("bat"), "application/x-bat", NoMagic, Some(Regex("^\\s*#!", "")), NotZipped)

  /** lib/definitions.js:380-385 */
  const CHeader: Definition :=
    Definition("code", "c-header", One("h"), "text/x-chdr", NoMagic, Some(Regex("^\\s*#\\s*(include|define)", "i")), NotZipped)

  /** lib/definitions.js:386-391 */
  const Pem: Definition :=
    Definition("code", "pem", One("pem"), "application/x-pem-file", NoMagic, Some(Regex("^\\s*(BEGIN|END)", "")), NotZipped)

  /** lib/definitions.js:392-397 */
  const R: Definition :=
    Definition("code", "r", One("r"), "text/x-r-source", NoMagic, Some(Regex("^\\s*(library|function|if|else|for|while)", "i")), NotZipped)

  /** lib/definitions.js:399-404 */
  const Text: Definition :=
    Definition("text", "text", One("txt"), "text/plain", NoMagic, None, NotZipped)

  /** lib/definitions.js:405-410 */
  const Markdown: Definition :=
    Definition("text", "markdown", One("md"), "text/markdown", NoMagic, Some(Regex("^\\s*(#{1,6}\\s+\\w+|\\*\\s+\\w+|-\\s+\\w+|\\d+\\.\\s+\\w+|\\[.+\\]\\(http.+)", "i")), NotZipped)

  /** lib/definitions.js:411-416 */
  const Latex: Definition :=
    Definition("text", "latex", One("tex"), "application/x-latex", NoMagic, Some(Regex("^\\s*(\\\\documentclass|\\\\begin|\\\\end)", "i")), NotZipped)

  /** lib/definitions.js:417-423 */
  const Rtf: Definition :=
    Definition("text", "rtf", One("rtf"), "application/rtf", Flat([Byte(0x7b), Byte(0x5c), Byte(0x72), Byte(0x74), Byte(0x66)]), Some(Regex("^\\{\\\\rtf", "i")), NotZipped)

  const ImageDefinitions: seq<Definition> := [Jpeg, Png, Gif87a, Gif89a, TifLittleEndian, TifBigEndian, Bitmap, Icon, Webp, Pdf, Svg]

  const VideoDefinitions: seq<Definition> := [Mp4, Quicktime, Avi, Mkv, Webm, Flv]

  const AudioDefinitions: seq<Definition> := [Mp3, Ogg, Wav]

  const CompressedDefinitions: seq<Definition> := [Zip, Rar, Gzip, SevenZip, Tar]

  const OfficeDefinitions: seq<Definition> := [Doc, Xls, Ppt, Docx, Xlsx, Pptx]

  /** The code records, in three runs of about ten. */
  const CodeDefinitions1: seq<Definition> := [Html, Shell, Ruby, Python, Java, Css, Json, Xml, Csv, Javascript]
  const CodeDefinitions2: seq<Definition> := [Php, Yaml, Sql, Go, Groovy, Kotlin, Rust, Typescript, Swift, Perl]
  const CodeDefinitions3: seq<Definition> := [C, Cpp, Csharp, Visualbasic, Powershell, Configuration, Ini, Batch, CHeader, Pem, R]

  const CodeDefinitions: seq<Definition> := CodeDefinitions1 + CodeDefinitions2 + CodeDefinitions3

  const TextDefinitions: seq<Definition> := [Text, Markdown, Latex, Rtf]

  const Definitions: seq<Definition> :=
    ImageDefinitions + VideoDefinitions + AudioDefinitions + CompressedDefinitions
    + OfficeDefinitions + CodeDefinitions + TextDefinitions

  /** A token accepts the byte at its position. */
  predicate Accepts(t: Token, b: byte)
  {
    t.Wildcard? || t.value == b
  }

  /** A flat signature matches when each of its positions exists in the
      buffer and is accepted there. */
  predicate TokensMatch(toks: seq<Token>, buf: seq<byte>)
    decreases |toks|
  {
    toks == [] || (buf != [] && Accepts(toks[0], buf[0]) && TokensMatch(toks[1..], buf[1..]))
  }

  /** A signature matches the buffer: `null` never does, a flat one must be
      accepted position by position, and a list of alternatives needs one
      alternative to be a prefix of the buffer. */
  predicate SpecMatches(m: MagicSpec, buf: seq<byte>)
  {
    match m
    case NoMagic => false
    case Flat(toks) => TokensMatch(toks, buf)
    case AnyOf(alts) => exists i :: 0 <= i < |alts| && StartsWith(buf, alts[i])
  }

  /** The matcher compares position by position and needs the buffer to be
      at least as long as the signature. */
  lemma {:induction false} TokensMatchSpec(toks: seq<Token>, buf: seq<byte>)
    ensures TokensMatch(toks, buf) <==> |toks| <= |buf| && forall i :: 0 <= i < |toks| ==> Accepts(toks[i], buf[i])
    decreases |toks|
  {
    if toks != [] && buf != [] {
      TokensMatchSpec(toks[1..], buf[1..]);
      if |toks| <= |buf| && forall i :: 0 <= i < |toks| ==> Accepts(toks[i], buf[i]) {
        forall i | 0 <= i < |toks[1..]| ensures Accepts(toks[1..][i], buf[1..][i]) {
          assert toks[1..][i] == toks[i + 1] && buf[1..][i] == buf[i + 1];
        }
      }
      if TokensMatch(toks, buf) {
        forall i | 0 <= i < |toks| ensures Accepts(toks[i], buf[i]) {
          if i > 0 {
            assert toks[1..][i - 1] == toks[i] && buf[1..][i - 1] == buf[i];
          }
        }
      }
    }
  }

  /** The tokens of an all-exact signature. */
  function Exact(sig: seq<byte>): (r: seq<Token>)
    ensures |r| == |sig| && forall i :: 0 <= i < |sig| ==> r[i] == Byte(sig[i])
  {
    seq(|sig|, i requires 0 <= i < |sig| => Byte(sig[i]))
  }

  /** Without wildcards the matcher is the positional equality of
      `getFileTypeFromMagicNumbers`. */
  lemma ExactIsPositional(sig: seq<byte>, buf: seq<byte>)
    ensures TokensMatch(Exact(sig), buf) <==> SigMatches(sig, buf)
  {
    TokensMatchSpec(Exact(sig), buf);
  }

  /** A buffer has the ZIP signature exactly when its first four bytes are
      one of the three `PK` markers; shorter buffers never have it. */
  lemma ZipMagicSpec(buf: seq<byte>)
    ensures SpecMatches(ZipMagic, buf) <==> |buf| >= 4 && buf[..4] in ZipHeaders
    ensures |buf| < 4 ==> !SpecMatches(ZipMagic, buf)
  {
    if |buf| >= 4 && buf[..4] in ZipHeaders {
      var i :| 0 <= i < |ZipHeaders| && ZipHeaders[i] == buf[..4];
      assert StartsWith(buf, ZipHeaders[i]);
    }
  }

  /** The wav signature fixes `RIFF` at bytes 0-3 and `WAVE` at bytes
      8-11, and accepts anything at bytes 4-7. */
  lemma WavMagicSpec(buf: seq<byte>)
    ensures Wav.magic == WavMagic
    ensures SpecMatches(WavMagic, buf) <==> WavHeader(buf)
  {
    if SpecMatches(WavMagic, buf) {
      WavMatchHasHeader(buf);
    }
    if WavHeader(buf) {
      WavHeaderMatches(buf);
    }
  }

  /** `RIFF`, four arbitrary bytes, `WAVE`. */
  predicate WavHeader(buf: seq<byte>)
  {
    |buf| >= 12 && buf[..4] == [0x52, 0x49, 0x46, 0x46] && buf[8..12] == [0x57, 0x41, 0x56, 0x45]
  }

  lemma WavMatchHasHeader(buf: seq<byte>)
    requires SpecMatches(WavMagic, buf)
    ensures WavHeader(buf)
  {
    WavMatchBytes(buf);
    FourBytes(buf[..4], 0x52, 0x49, 0x46, 0x46);
    FourBytes(buf[8..12], 0x57, 0x41, 0x56, 0x45);
  }

  lemma WavMatchBytes(buf: seq<byte>)
    requires SpecMatches(WavMagic, buf)
    ensures |buf| >= 12 && buf[0] == 0x52 && buf[1] == 0x49 && buf[2] == 0x46 && buf[3] == 0x46
    ensures buf[8] == 0x57 && buf[9] == 0x41 && buf[10] == 0x56 && buf[11] == 0x45
  {
    var t := WavMagic.tokens;
    TokensMatchSpec(t, buf);
    assert Accepts(t[0], buf[0]) && Accepts(t[1], buf[1]) && Accepts(t[2], buf[2]) && Accepts(t[3], buf[3]);
    assert Accepts(t[8], buf[8]) && Accepts(t[9], buf[9]) && Accepts(t[10], buf[10]) && Accepts(t[11], buf[11]);
  }

  lemma FourBytes(s: seq<byte>, a: byte, b: byte, c: byte, d: byte)
    requires |s| == 4 && s[0] == a && s[1] == b && s[2] == c && s[3] == d
    ensures s == [a, b, c, d]
  {
  }

  lemma WavHeaderMatches(buf: seq<byte>)
    requires WavHeader(buf)
    ensures SpecMatches(WavMagic, buf)
  {
    var t := WavMagic.tokens;
    forall i | 0 <= i < |t| ensures Accepts(t[i], buf[i]) {
      if i < 4 {
        assert buf[i] == buf[..4][i];
      } else if i >= 8 {
        assert buf[i] == buf[8..12][i - 8];
      }
    }
    TokensMatchSpec(t, buf);
  }

  /** An mp3 buffer begins with `ID3` or with one of the three MPEG frame
      syncs; a one-byte buffer is never mp3. */
  lemma Mp3MagicSpec(buf: seq<byte>)
    ensures Mp3.magic == Mp3Magic
    ensures SpecMatches(Mp3Magic, buf) <==>
              StartsWith(buf, [0x49, 0x44, 0x33]) || StartsWith(buf, [0xff, 0xfb])
              || StartsWith(buf, [0xff, 0xf3]) || StartsWith(buf, [0xff, 0xf2])
    ensures |buf| < 2 ==> !SpecMatches(Mp3Magic, buf)
  {
    var alts := Mp3Magic.alts;
    assert |alts| == 4;
    if StartsWith(buf, [0x49, 0x44, 0x33]) { assert StartsWith(buf, alts[0]); }
    if StartsWith(buf, [0xff, 0xfb]) { assert StartsWith(buf, alts[1]); }
    if StartsWith(buf, [0xff, 0xf3]) { assert StartsWith(buf, alts[2]); }
    if StartsWith(buf, [0xff, 0xf2]) { assert StartsWith(buf, alts[3]); }
  }

  /** `mkv` and `webm` have the same signature. */
  lemma MkvWebmSame(buf: seq<byte>)
    ensures Mkv.magic == Webm.magic
    ensures SpecMatches(Mkv.magic, buf) <==> SpecMatches(Webm.magic, buf)
  {
  }

  /** `webp` and `avi` both begin `RIFF` but differ at byte 4, so no buffer
      matches both. */
  lemma WebpAviExclusive(buf: seq<byte>)
    ensures Webp.magic == WebpMagic && Avi.magic == AviMagic
    ensures WebpMagic.tokens[..4] == AviMagic.tokens[..4]
    ensures !(SpecMatches(WebpMagic, buf) && SpecMatches(AviMagic, buf))
  {
    if SpecMatches(WebpMagic, buf) && SpecMatches(AviMagic, buf) {
      FlatByteAt(WebpMagic, buf, 4);
      FlatByteAt(AviMagic, buf, 4);
      assert false;
    }
  }

  /** A buffer matching a flat signature is accepted at each of its positions. */
  lemma FlatByteAt(m: MagicSpec, buf: seq<byte>, i: nat)
    requires m.Flat? && i < |m.tokens| && SpecMatches(m, buf)
    ensures i < |buf| && Accepts(m.tokens[i], buf[i])
  {
    TokensMatchSpec(m.tokens, buf);
  }

  /** The extensions a record lists, in order. */
  function Extensions(e: Ext): seq<string>
  {
    match e
    case One(n) => [n]
    case Many(ns) => ns
  }

  /** At least one extension, none of them empty. */
  predicate ValidExt(e: Ext)
  {
    |Extensions(e)| > 0 && forall i :: 0 <= i < |Extensions(e)| ==> Extensions(e)[i] != ""
  }

  /** The canonical extension: the only one, or the first of the list. */
  function CanonicalExt(e: Ext): (r: string)
    requires ValidExt(e)
    ensures r != "" && r in Extensions(e)
    ensures e.Many? ==> r == e.names[0]
  {
    match e
    case One(n) => assert Extensions(e)[0] == n; n
    case Many(ns) => assert Extensions(e)[0] == ns[0]; ns[0]
  }

  /** Every record of `ds` has a non-empty extension. */
  predicate AllExtsValid(ds: seq<Definition>)
  {
    forall d :: d in ds ==> ValidExt(d.ext)
  }

  lemma AllExtsValidConcat(a: seq<Definition>, b: seq<Definition>)
    requires AllExtsValid(a) && AllExtsValid(b)
    ensures AllExtsValid(a + b)
  {
  }

  lemma ImageExtsValid()
    ensures AllExtsValid(ImageDefinitions)
  {
    assert ValidExt(Jpeg.ext);
    assert ValidExt(Png.ext);
    assert ValidExt(Gif87a.ext);
    assert ValidExt(Gif89a.ext);
    assert ValidExt(TifLittleEndian.ext);
    assert ValidExt(TifBigEndian.ext);
    assert ValidExt(Bitmap.ext);
    assert ValidExt(Icon.ext);
    assert ValidExt(Webp.ext);
    assert ValidExt(Pdf.ext);
    assert ValidExt(Svg.ext);
  }

  lemma VideoExtsValid()
    ensures AllExtsValid(VideoDefinitions)
  {
    assert ValidExt(Mp4.ext);
    assert ValidExt(Quicktime.ext);
    assert ValidExt(Avi.ext);
    assert ValidExt(Mkv.ext);
    assert ValidExt(Webm.ext);
    assert ValidExt(Flv.ext);
  }

  lemma AudioExtsValid()
    ensures AllExtsValid(AudioDefinitions)
  {
    assert ValidExt(Mp3.ext);
    assert ValidExt(Ogg.ext);
    assert ValidExt(Wav.ext);
  }

  lemma CompressedExtsValid()
    ensures AllExtsValid(CompressedDefinitions)
  {
    assert ValidExt(Zip.ext);
    assert ValidExt(Rar.ext);
    assert ValidExt(Gzip.ext);
    assert ValidExt(SevenZip.ext);
    assert ValidExt(Tar.ext);
  }

  lemma OfficeExtsValid()
    ensures AllExtsValid(OfficeDefinitions)
  {
    assert ValidExt(Doc.ext);
    assert ValidExt(Xls.ext);
    assert ValidExt(Ppt.ext);
    assert ValidExt(Docx.ext);
    assert ValidExt(Xlsx.ext);
    assert ValidExt(Pptx.ext);
  }

  lemma Code1ExtsValid()
    ensures AllExtsValid(CodeDefinitions1)
  {
    assert ValidExt(Html.ext);
    assert ValidExt(Shell.ext);
    assert ValidExt(Ruby.ext);
    assert ValidExt(Python.ext);
    assert ValidExt(Java.ext);
    assert ValidExt(Css.ext);
    assert ValidExt(Json.ext);
    assert ValidExt(Xml.ext);
    assert ValidExt(Csv.ext);
    assert ValidExt(Javascript.ext);
  }

  lemma Code2ExtsValid()
    ensures AllExtsValid(CodeDefinitions2)
  {
    assert ValidExt(Php.ext);
    assert ValidExt(Yaml.ext);
    assert ValidExt(Sql.ext);
    assert ValidExt(Go.ext);
    assert ValidExt(Groovy.ext);
    assert ValidExt(Kotlin.ext);
    assert ValidExt(Rust.ext);
    assert ValidExt(Typescript.ext);
    assert ValidExt(Swift.ext);
    assert ValidExt(Perl.ext);
  }

  lemma Code3ExtsValid()
    ensures AllExtsValid(CodeDefinitions3)
  {
    assert ValidExt(C.ext);
    assert ValidExt(Cpp.ext);
    assert ValidExt(Csharp.ext);
    assert ValidExt(Visualbasic.ext);
    assert ValidExt(Powershell.ext);
    assert ValidExt(Configuration.ext);
    assert ValidExt(Ini.ext);
    assert ValidExt(Batch.ext);
    assert ValidExt(CHeader.ext);
    assert ValidExt(Pem.ext);
    assert ValidExt(R.ext);
  }

  lemma TextExtsValid()
    ensures AllExtsValid(TextDefinitions)
  {
    assert ValidExt(Text.ext);
    assert ValidExt(Markdown.ext);
    assert ValidExt(Latex.ext);
    assert ValidExt(Rtf.ext);
  }

  /** Every record has a non-empty extension. */
  lemma ExtsValid()
    ensures AllExtsValid(Definitions)
  {
    ImageExtsValid();
    VideoExtsValid();
    AudioExtsValid();
    CompressedExtsValid();
    OfficeExtsValid();
    Code1ExtsValid();
    Code2ExtsValid();
    Code3ExtsValid();
    TextExtsValid();
    AllExtsValidConcat(CodeDefinitions1, CodeDefinitions2);
    AllExtsValidConcat(CodeDefinitions1 + CodeDefinitions2, CodeDefinitions3);
    AllExtsValidConcat(ImageDefinitions, VideoDefinitions);
    AllExtsValidConcat(ImageDefinitions + VideoDefinitions, AudioDefinitions);
    AllExtsValidConcat(ImageDefinitions + VideoDefinitions + AudioDefinitions, CompressedDefinitions);
    AllExtsValidConcat(ImageDefinitions + VideoDefinitions + AudioDefinitions + CompressedDefinitions, OfficeDefinitions);
    AllExtsValidConcat(ImageDefinitions + VideoDefinitions + AudioDefinitions + CompressedDefinitions + OfficeDefinitions, CodeDefinitions);
    AllExtsValidConcat(ImageDefinitions + VideoDefinitions + AudioDefinitions + CompressedDefinitions + OfficeDefinitions + CodeDefinitions, TextDefinitions);
  }

  /** No record of `ds` but zip has `zipped: true`. */
  predicate OnlyZipFlagged(ds: seq<Definition>)
  {
    forall d :: d in ds ==> (d.zipped == ZipFlag ==> d == Zip)
  }

  lemma OnlyZipFlaggedConcat(a: seq<Definition>, b: seq<Definition>)
    requires OnlyZipFlagged(a) && OnlyZipFlagged(b)
    ensures OnlyZipFlagged(a + b)
  {
  }

  /* The `*ZipFlags` lemmas below state the body of `OnlyZipFlagged` once per
     record of the group: each assertion is the instance of its quantifier
     `forall d :: d in ds ==> ...` at that record, which the verifier would
     otherwise have to find by expanding membership in the whole group. */

  lemma ImageZipFlags()
    ensures OnlyZipFlagged(ImageDefinitions)
  {
    assert (Jpeg.zipped == ZipFlag ==> Jpeg == Zip);
    assert (Png.zipped == ZipFlag ==> Png == Zip);
    assert (Gif87a.zipped == ZipFlag ==> Gif87a == Zip);
    assert (Gif89a.zipped == ZipFlag ==> Gif89a == Zip);
    assert (TifLittleEndian.zipped == ZipFlag ==> TifLittleEndian == Zip);
    assert (TifBigEndian.zipped == ZipFlag ==> TifBigEndian == Zip);
    assert (Bitmap.zipped == ZipFlag ==> Bitmap == Zip);
    assert (Icon.zipped == ZipFlag ==> Icon == Zip);
    assert (Webp.zipped == ZipFlag ==> Webp == Zip);
    assert (Pdf.zipped == ZipFlag ==> Pdf == Zip);
    assert (Svg.zipped == ZipFlag ==> Svg == Zip);
  }

  lemma VideoZipFlags()
    ensures OnlyZipFlagged(VideoDefinitions)
  {
    assert (Mp4.zipped == ZipFlag ==> Mp4 == Zip);
    assert (Quicktime.zipped == ZipFlag ==> Quicktime == Zip);
    assert (Avi.zipped == ZipFlag ==> Avi == Zip);
    assert (Mkv.zipped == ZipFlag ==> Mkv == Zip);
    assert (Webm.zipped == ZipFlag ==> Webm == Zip);
    assert (Flv.zipped == ZipFlag ==> Flv == Zip);
  }

  lemma AudioZipFlags()
    ensures OnlyZipFlagged(AudioDefinitions)
  {
    assert (Mp3.zipped == ZipFlag ==> Mp3 == Zip);
    assert (Ogg.zipped == ZipFlag ==> Ogg == Zip);
    assert (Wav.zipped == ZipFlag ==> Wav == Zip);
  }

  lemma CompressedZipFlags()
    ensures OnlyZipFlagged(CompressedDefinitions)
  {
    assert (Zip.zipped == ZipFlag ==> Zip == Zip);
    assert (Rar.zipped == ZipFlag ==> Rar == Zip);
    assert (Gzip.zipped == ZipFlag ==> Gzip == Zip);
    assert (SevenZip.zipped == ZipFlag ==> SevenZip == Zip);
    assert (Tar.zipped == ZipFlag ==> Tar == Zip);
  }

  lemma OfficeZipFlags()
    ensures OnlyZipFlagged(OfficeDefinitions)
  {
    assert (Doc.zipped == ZipFlag ==> Doc == Zip);
    assert (Xls.zipped == ZipFlag ==> Xls == Zip);
    assert (Ppt.zipped == ZipFlag ==> Ppt == Zip);
    assert (Docx.zipped == ZipFlag ==> Docx == Zip);
    assert (Xlsx.zipped == ZipFlag ==> Xlsx == Zip);
    assert (Pptx.zipped == ZipFlag ==> Pptx == Zip);
  }

  lemma Code1ZipFlags()
    ensures OnlyZipFlagged(CodeDefinitions1)
  {
    assert (Html.zipped == ZipFlag ==> Html == Zip);
    assert (Shell.zipped == ZipFlag ==> Shell == Zip);
    assert (Ruby.zipped == ZipFlag ==> Ruby == Zip);
    assert (Python.zipped == ZipFlag ==> Python == Zip);
    assert (Java.zipped == ZipFlag ==> Java == Zip);
    assert (Css.zipped == ZipFlag ==> Css == Zip);
    assert (Json.zipped == ZipFlag ==> Json == Zip);
    assert (Xml.zipped == ZipFlag ==> Xml == Zip);
    assert (Csv.zipped == ZipFlag ==> Csv == Zip);
    assert (Javascript.zipped == ZipFlag ==> Javascript == Zip);
  }

  lemma Code2ZipFlags()
    ensures OnlyZipFlagged(CodeDefinitions2)
  {
    assert (Php.zipped == ZipFlag ==> Php == Zip);
    assert (Yaml.zipped == ZipFlag ==> Yaml == Zip);
    assert (Sql.zipped == ZipFlag ==> Sql == Zip);
    assert (Go.zipped == ZipFlag ==> Go == Zip);
    assert (Groovy.zipped == ZipFlag ==> Groovy == Zip);
    assert (Kotlin.zipped == ZipFlag ==> Kotlin == Zip);
    assert (Rust.zipped == ZipFlag ==> Rust == Zip);
    assert (Typescript.zipped == ZipFlag ==> Typescript == Zip);
    assert (Swift.zipped == ZipFlag ==> Swift == Zip);
    assert (Perl.zipped == ZipFlag ==> Perl == Zip);
  }

  lemma Code3ZipFlags()
    ensures OnlyZipFlagged(CodeDefinitions3)
  {
    assert (C.zipped == ZipFlag ==> C == Zip);
    assert (Cpp.zipped == ZipFlag ==> Cpp == Zip);
    assert (Csharp.zipped == ZipFlag ==> Csharp == Zip);
    assert (Visualbasic.zipped == ZipFlag ==> Visualbasic == Zip);
    assert (Powershell.zipped == ZipFlag ==> Powershell == Zip);
    assert (Configuration.zipped == ZipFlag ==> Configuration == Zip);
    assert (Ini.zipped == ZipFlag ==> Ini == Zip);
    assert (Batch.zipped == ZipFlag ==> Batch == Zip);
    assert (CHeader.zipped == ZipFlag ==> CHeader == Zip);
    assert (Pem.zipped == ZipFlag ==> Pem == Zip);
    assert (R.zipped == ZipFlag ==> R == Zip);
  }

  lemma TextZipFlags()
    ensures OnlyZipFlagged(TextDefinitions)
  {
    assert (Text.zipped == ZipFlag ==> Text == Zip);
    assert (Markdown.zipped == ZipFlag ==> Markdown == Zip);
    assert (Latex.zipped == ZipFlag ==> Latex == Zip);
    assert (Rtf.zipped == ZipFlag ==> Rtf == Zip);
  }

  /** Only `zip` has `zipped: true`. */
  lemma OnlyZipFlaggedInTable()
    ensures OnlyZipFlagged(Definitions)
  {
    ImageZipFlags();
    VideoZipFlags();
    AudioZipFlags();
    CompressedZipFlags();
    OfficeZipFlags();
    Code1ZipFlags();
    Code2ZipFlags();
    Code3ZipFlags();
    TextZipFlags();
    OnlyZipFlaggedConcat(CodeDefinitions1, CodeDefinitions2);
    OnlyZipFlaggedConcat(CodeDefinitions1 + CodeDefinitions2, CodeDefinitions3);
    OnlyZipFlaggedConcat(ImageDefinitions, VideoDefinitions);
    OnlyZipFlaggedConcat(ImageDefinitions + VideoDefinitions, AudioDefinitions);
    OnlyZipFlaggedConcat(ImageDefinitions + VideoDefinitions + AudioDefinitions, CompressedDefinitions);
    OnlyZipFlaggedConcat(ImageDefinitions + VideoDefinitions + AudioDefinitions + CompressedDefinitions, OfficeDefinitions);
    OnlyZipFlaggedConcat(ImageDefinitions + VideoDefinitions + AudioDefinitions + CompressedDefinitions + OfficeDefinitions, CodeDefinitions);
    OnlyZipFlaggedConcat(ImageDefinitions + VideoDefinitions + AudioDefinitions + CompressedDefinitions + OfficeDefinitions + CodeDefinitions, TextDefinitions);
  }

  /** The only records of `ds` of type `tif` are the two tif records. */
  predicate OnlyTifTwins(ds: seq<Definition>)
  {
    forall d :: d in ds ==> (d.kind == "tif" ==> d == TifLittleEndian || d == TifBigEndian)
  }

  lemma OnlyTifTwinsConcat(a: seq<Definition>, b: seq<Definition>)
    requires OnlyTifTwins(a) && OnlyTifTwins(b)
    ensures OnlyTifTwins(a + b)
  {
  }

  /* As for the `*ZipFlags` lemmas: one assertion per record, each the
     instance of the quantifier of `OnlyTifTwins` at that record. */

  lemma ImageTifs()
    ensures OnlyTifTwins(ImageDefinitions)
  {
    assert (Jpeg.kind == "tif" ==> Jpeg == TifLittleEndian || Jpeg == TifBigEndian);
    assert (Png.kind == "tif" ==> Png == TifLittleEndian || Png == TifBigEndian);
    assert (Gif87a.kind == "tif" ==> Gif87a == TifLittleEndian || Gif87a == TifBigEndian);
    assert (Gif89a.kind == "tif" ==> Gif89a == TifLittleEndian || Gif89a == TifBigEndian);
    assert (TifLittleEndian.kind == "tif" ==> TifLittleEndian == TifLittleEndian || TifLittleEndian == TifBigEndian);
    assert (TifBigEndian.kind == "tif" ==> TifBigEndian == TifLittleEndian || TifBigEndian == TifBigEndian);
    assert (Bitmap.kind == "tif" ==> Bitmap == TifLittleEndian || Bitmap == TifBigEndian);
    assert (Icon.kind == "tif" ==> Icon == TifLittleEndian || Icon == TifBigEndian);
    assert (Webp.kind == "tif" ==> Webp == TifLittleEndian || Webp == TifBigEndian);
    assert (Pdf.kind == "tif" ==> Pdf == TifLittleEndian || Pdf == TifBigEndian);
    assert (Svg.kind == "tif" ==> Svg == TifLittleEndian || Svg == TifBigEndian);
  }

  lemma VideoTifs()
    ensures OnlyTifTwins(VideoDefinitions)
  {
    assert (Mp4.kind == "tif" ==> Mp4 == TifLittleEndian || Mp4 == TifBigEndian);
    assert (Quicktime.kind == "tif" ==> Quicktime == TifLittleEndian || Quicktime == TifBigEndian);
    assert (Avi.kind == "tif" ==> Avi == TifLittleEndian || Avi == TifBigEndian);
    assert (Mkv.kind == "tif" ==> Mkv == TifLittleEndian || Mkv == TifBigEndian);
    assert (Webm.kind == "tif" ==> Webm == TifLittleEndian || Webm == TifBigEndian);
    assert (Flv.kind == "tif" ==> Flv == TifLittleEndian || Flv == TifBigEndian);
  }

  lemma AudioTifs()
    ensures OnlyTifTwins(AudioDefinitions)
  {
    assert (Mp3.kind == "tif" ==> Mp3 == TifLittleEndian || Mp3 == TifBigEndian);
    assert (Ogg.kind == "tif" ==> Ogg == TifLittleEndian || Ogg == TifBigEndian);
    assert (Wav.kind == "tif" ==> Wav == TifLittleEndian || Wav == TifBigEndian);
  }

  lemma CompressedTifs()
    ensures OnlyTifTwins(CompressedDefinitions)
  {
    assert (Zip.kind == "tif" ==> Zip == TifLittleEndian || Zip == TifBigEndian);
    assert (Rar.kind == "tif" ==> Rar == TifLittleEndian || Rar == TifBigEndian);
    assert (Gzip.kind == "tif" ==> Gzip == TifLittleEndian || Gzip == TifBigEndian);
    assert (SevenZip.kind == "tif" ==> SevenZip == TifLittleEndian || SevenZip == TifBigEndian);
    assert (Tar.kind == "tif" ==> Tar == TifLittleEndian || Tar == TifBigEndian);
  }

  lemma OfficeTifs()
    ensures OnlyTifTwins(OfficeDefinitions)
  {
    assert (Doc.kind == "tif" ==> Doc == TifLittleEndian || Doc == TifBigEndian);
    assert (Xls.kind == "tif" ==> Xls == TifLittleEndian || Xls == TifBigEndian);
    assert (Ppt.kind == "tif" ==> Ppt == TifLittleEndian || Ppt == TifBigEndian);
    assert (Docx.kind == "tif" ==> Docx == TifLittleEndian || Docx == TifBigEndian);
    assert (Xlsx.kind == "tif" ==> Xlsx == TifLittleEndian || Xlsx == TifBigEndian);
    assert (Pptx.kind == "tif" ==> Pptx == TifLittleEndian || Pptx == TifBigEndian);
  }

  lemma Code1Tifs()
    ensures OnlyTifTwins(CodeDefinitions1)
  {
    assert (Html.kind == "tif" ==> Html == TifLittleEndian || Html == TifBigEndian);
    assert (Shell.kind == "tif" ==> Shell == TifLittleEndian || Shell == TifBigEndian);
    assert (Ruby.kind == "tif" ==> Ruby == TifLittleEndian || Ruby == TifBigEndian);
    assert (Python.kind == "tif" ==> Python == TifLittleEndian || Python == TifBigEndian);
    assert (Java.kind == "tif" ==> Java == TifLittleEndian || Java == TifBigEndian);
    assert (Css.kind == "tif" ==> Css == TifLittleEndian || Css == TifBigEndian);
    assert (Json.kind == "tif" ==> Json == TifLittleEndian || Json == TifBigEndian);
    assert (Xml.kind == "tif" ==> Xml == TifLittleEndian || Xml == TifBigEndian);
    assert (Csv.kind == "tif" ==> Csv == TifLittleEndian || Csv == TifBigEndian);
    assert (Javascript.kind == "tif" ==> Javascript == TifLittleEndian || Javascript == TifBigEndian);
  }

  lemma Code2Tifs()
    ensures OnlyTifTwins(CodeDefinitions2)
  {
    assert (Php.kind == "tif" ==> Php == TifLittleEndian || Php == TifBigEndian);
    assert (Yaml.kind == "tif" ==> Yaml == TifLittleEndian || Yaml == TifBigEndian);
    assert (Sql.kind == "tif" ==> Sql == TifLittleEndian || Sql == TifBigEndian);
    assert (Go.kind == "tif" ==> Go == TifLittleEndian || Go == TifBigEndian);
    assert (Groovy.kind == "tif" ==> Groovy == TifLittleEndian || Groovy == TifBigEndian);
    assert (Kotlin.kind == "tif" ==> Kotlin == TifLittleEndian || Kotlin == TifBigEndian);
    assert (Rust.kind == "tif" ==> Rust == TifLittleEndian || Rust == TifBigEndian);
    assert (Typescript.kind == "tif" ==> Typescript == TifLittleEndian || Typescript == TifBigEndian);
    assert (Swift.kind == "tif" ==> Swift == TifLittleEndian || Swift == TifBigEndian);
    assert (Perl.kind == "tif" ==> Perl == TifLittleEndian || Perl == TifBigEndian);
  }

  lemma Code3Tifs()
    ensures OnlyTifTwins(CodeDefinitions3)
  {
    assert (C.kind == "tif" ==> C == TifLittleEndian || C == TifBigEndian);
    assert (Cpp.kind == "tif" ==> Cpp == TifLittleEndian || Cpp == TifBigEndian);
    assert (Csharp.kind == "tif" ==> Csharp == TifLittleEndian || Csharp == TifBigEndian);
    assert (Visualbasic.kind == "tif" ==> Visualbasic == TifLittleEndian || Visualbasic == TifBigEndian);
    assert (Powershell.kind == "tif" ==> Powershell == TifLittleEndian || Powershell == TifBigEndian);
    assert (Configuration.kind == "tif" ==> Configuration == TifLittleEndian || Configuration == TifBigEndian);
    assert (Ini.kind == "tif" ==> Ini == TifLittleEndian || Ini == TifBigEndian);
    assert (Batch.kind == "tif" ==> Batch == TifLittleEndian || Batch == TifBigEndian);
    assert (CHeader.kind == "tif" ==> CHeader == TifLittleEndian || CHeader == TifBigEndian);
    assert (Pem.kind == "tif" ==> Pem == TifLittleEndian || Pem == TifBigEndian);
    assert (R.kind == "tif" ==> R == TifLittleEndian || R == TifBigEndian);
  }

  lemma TextTifs()
    ensures OnlyTifTwins(TextDefinitions)
  {
    assert (Text.kind == "tif" ==> Text == TifLittleEndian || Text == TifBigEndian);
    assert (Markdown.kind == "tif" ==> Markdown == TifLittleEndian || Markdown == TifBigEndian);
    assert (Latex.kind == "tif" ==> Latex == TifLittleEndian || Latex == TifBigEndian);
    assert (Rtf.kind == "tif" ==> Rtf == TifLittleEndian || Rtf == TifBigEndian);
  }

  /** The two `tif` records are the only records of type `tif`. */
  lemma OnlyTifTwinsInTable()
    ensures OnlyTifTwins(Definitions)
  {
    ImageTifs();
    VideoTifs();
    AudioTifs();
    CompressedTifs();
    OfficeTifs();
    Code1Tifs();
    Code2Tifs();
    Code3Tifs();
    TextTifs();
    OnlyTifTwinsConcat(CodeDefinitions1, CodeDefinitions2);
    OnlyTifTwinsConcat(CodeDefinitions1 + CodeDefinitions2, CodeDefinitions3);
    OnlyTifTwinsConcat(ImageDefinitions, VideoDefinitions);
    OnlyTifTwinsConcat(ImageDefinitions + VideoDefinitions, AudioDefinitions);
    OnlyTifTwinsConcat(ImageDefinitions + VideoDefinitions + AudioDefinitions, CompressedDefinitions);
    OnlyTifTwinsConcat(ImageDefinitions + VideoDefinitions + AudioDefinitions + CompressedDefinitions, OfficeDefinitions);
    OnlyTifTwinsConcat(ImageDefinitions + VideoDefinitions + AudioDefinitions + CompressedDefinitions + OfficeDefinitions, CodeDefinitions);
    OnlyTifTwinsConcat(ImageDefinitions + VideoDefinitions + AudioDefinitions + CompressedDefinitions + OfficeDefinitions + CodeDefinitions, TextDefinitions);
  }

  /** `jpg` is the canonical extension of jpeg, and `zip` that of zip (and
      so of epub). */
  lemma CanonicalExts()
    ensures ValidExt(Jpeg.ext) && CanonicalExt(Jpeg.ext) == "jpg" && "jpeg" in Extensions(Jpeg.ext)
    ensures ValidExt(Zip.ext) && CanonicalExt(Zip.ext) == "zip" && "epub" in Extensions(Zip.ext)
  {
  }

  /** `zip`, `docx`, `xlsx` and `pptx` share the ZIP signature set, and
      each OOXML record names `[Content_Types].xml` and one part of its own. */
  lemma ZipFamily()
    ensures Zip.magic == ZipMagic && Docx.magic == ZipMagic && Xlsx.magic == ZipMagic && Pptx.magic == ZipMagic
    ensures Zip.zipped == ZipFlag
    ensures forall d :: d in [Docx, Xlsx, Pptx] ==>
              d.zipped.Entries? && |d.zipped.paths| == 2 && d.zipped.paths[0] == "[Content_Types].xml"
    ensures Docx.zipped.paths[1] != Xlsx.zipped.paths[1] && Docx.zipped.paths[1] != Pptx.zipped.paths[1]
            && Xlsx.zipped.paths[1] != Pptx.zipped.paths[1]
  {
  }

  /** The two `tif` records agree on every field but `magic`: only an
      identity tells them apart. */
  lemma TifTwins()
    ensures TifLittleEndian.(magic := TifBigEndian.magic) == TifBigEndian
    ensures TifLittleEndian.magic != TifBigEndian.magic
  {
  }
}
