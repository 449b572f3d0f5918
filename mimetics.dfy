/** The first-match detector of lib/mimetics.js: the `Mimetics` class, its
    four configuration tables, and the lookups it performs on them. */
module Mimetics {
  import opened Tables
  import opened Constants
  import opened Signatures
  import opened Patterns
  import MagicTable
  import FileTypes

  /** A JavaScript value handed to a lookup: a string, or anything else
      (`null`, `undefined`, a number, an object). */
  datatype Value = Str(s: string) | Other

  /** The argument of `parse`/`getFileType`: a `Uint8Array` or `ArrayBuffer`,
      by its bytes, or anything else. */
  datatype Input = Binary(bytes: seq<byte>) | NotBinary

  /** The errors the detector throws, by kind. */
  datatype Error = InvalidBuffer | InvalidExtension | UnrecognizedExtension(ext: string)

  datatype Result<T> = Ok(value: T) | Fail(error: Error)

  /** The four tables of an instance. Signatures, text patterns and edge
      cases are walked in insertion order; MIME types are only looked up. */
  datatype Settings = Settings(
    magicNumbers: Table<seq<int>>,
    mimeTypeMap: map<string, Value>,
    fileTypeMap: Table<Pattern>,
    edgeCases: Table<seq<string>>)

  /** The `opts` object: for each label, the entries of the plain object
      given under it, or `None` when the label is absent (or falsy). */
  datatype Options = Options(
    magic: Option<Table<seq<int>>>,
    mime: Option<Table<Value>>,
    file: Option<Table<Pattern>>,
    edge: Option<Table<seq<string>>>)

  const NoOptions: Options := Options(None, None, None, None)

  /** The labels `setOptions` walks, in its order. */
  datatype Label = Magic | Mime | File | Edge

  const Labels: seq<Label> := [Magic, Mime, File, Edge]

  /** The assignments one label of the options makes. */
  function ApplyLabel(s: Settings, opts: Options, l: Label): Settings
  {
    match l
    case Magic => if opts.magic.Some? then s.(magicNumbers := PutAll(s.magicNumbers, opts.magic.value)) else s
    case Mime => if opts.mime.Some? then s.(mimeTypeMap := UpdateAll(s.mimeTypeMap, opts.mime.value)) else s
    case File => if opts.file.Some? then s.(fileTypeMap := PutAll(s.fileTypeMap, opts.file.value)) else s
    case Edge => if opts.edge.Some? then s.(edgeCases := PutAll(s.edgeCases, opts.edge.value)) else s
  }

  /** The assignments of the labels `ls`, in order. */
  function ApplyLabels(s: Settings, opts: Options, ls: seq<Label>): Settings
    decreases |ls|
  {
    if ls == [] then s else ApplyLabel(ApplyLabels(s, opts, ls[..|ls| - 1]), opts, ls[|ls| - 1])
  }

  /** The tables after `setOptions(opts)`. */
  function Apply(s: Settings, opts: Options): Settings
  {
    ApplyLabels(s, opts, Labels)
  }

  /** Each label updates its own table by the batch of its entries, and a
      missing label leaves its table as it was. */
  lemma ApplySpec(s: Settings, opts: Options)
    ensures Apply(s, opts).magicNumbers == if opts.magic.Some? then PutAll(s.magicNumbers, opts.magic.value) else s.magicNumbers
    ensures Apply(s, opts).mimeTypeMap == if opts.mime.Some? then UpdateAll(s.mimeTypeMap, opts.mime.value) else s.mimeTypeMap
    ensures Apply(s, opts).fileTypeMap == if opts.file.Some? then PutAll(s.fileTypeMap, opts.file.value) else s.fileTypeMap
    ensures Apply(s, opts).edgeCases == if opts.edge.Some? then PutAll(s.edgeCases, opts.edge.value) else s.edgeCases
  {
    var s1 := ApplyLabel(s, opts, Magic);
    var s2 := ApplyLabel(s1, opts, Mime);
    var s3 := ApplyLabel(s2, opts, File);
    assert Labels[..1][..0] == [] && Labels[..1] == [Magic];
    assert ApplyLabels(s, opts, Labels[..1]) == s1;
    assert Labels[..2][..1] == Labels[..1] && Labels[..2][1] == Mime;
    assert ApplyLabels(s, opts, Labels[..2]) == s2;
    assert Labels[..3][..2] == Labels[..2] && Labels[..3][2] == File;
    assert ApplyLabels(s, opts, Labels[..3]) == s3;
    assert Labels[..3] == Labels[..|Labels| - 1];
  }

  /** After `setOptions`, a key given under a label reads back the last
      value given for it; every other key reads back its old value. */
  lemma ApplyGet(s: Settings, opts: Options, k: string)
    ensures opts.magic.Some? ==>
              Get(Apply(s, opts).magicNumbers, k)
                == if LastValue(opts.magic.value, k).Some? then LastValue(opts.magic.value, k) else Get(s.magicNumbers, k)
    ensures opts.file.Some? ==>
              Get(Apply(s, opts).fileTypeMap, k)
                == if LastValue(opts.file.value, k).Some? then LastValue(opts.file.value, k) else Get(s.fileTypeMap, k)
    ensures opts.edge.Some? ==>
              Get(Apply(s, opts).edgeCases, k)
                == if LastValue(opts.edge.value, k).Some? then LastValue(opts.edge.value, k) else Get(s.edgeCases, k)
    ensures opts.mime.Some? && LastValue(opts.mime.value, k).Some? ==>
              k in Apply(s, opts).mimeTypeMap && Apply(s, opts).mimeTypeMap[k] == LastValue(opts.mime.value, k).value
    ensures opts.mime.Some? && LastValue(opts.mime.value, k).None? ==>
              (k in Apply(s, opts).mimeTypeMap <==> k in s.mimeTypeMap)
              && (k in s.mimeTypeMap ==> Apply(s, opts).mimeTypeMap[k] == s.mimeTypeMap[k])
  {
    ApplySpec(s, opts);
    if opts.magic.Some? { PutAllGet(s.magicNumbers, opts.magic.value, k); }
    if opts.file.Some? { PutAllGet(s.fileTypeMap, opts.file.value, k); }
    if opts.edge.Some? { PutAllGet(s.edgeCases, opts.edge.value, k); }
    if opts.mime.Some? { UpdateAllGet(s.mimeTypeMap, opts.mime.value, k); }
  }

  /** `setOptions` keeps the keys of every ordered table distinct. */
  lemma ApplyUnique(s: Settings, opts: Options)
    requires UniqueKeys(s.magicNumbers) && UniqueKeys(s.fileTypeMap) && UniqueKeys(s.edgeCases)
    ensures UniqueKeys(Apply(s, opts).magicNumbers)
    ensures UniqueKeys(Apply(s, opts).fileTypeMap)
    ensures UniqueKeys(Apply(s, opts).edgeCases)
  {
    ApplySpec(s, opts);
    if opts.magic.Some? { PutAllUnique(s.magicNumbers, opts.magic.value); }
    if opts.file.Some? { PutAllUnique(s.fileTypeMap, opts.file.value); }
    if opts.edge.Some? { PutAllUnique(s.edgeCases, opts.edge.value); }
  }

  /** `validateBuffer`, then the `ArrayBuffer` to `Uint8Array` view. */
  function ValidateBuffer(input: Input): (r: Result<seq<byte>>)
    ensures r.Fail? <==> input.NotBinary?
    ensures r.Fail? ==> r.error == InvalidBuffer
    ensures r.Ok? ==> r.value == input.bytes
  {
    match input
    case NotBinary => Fail(InvalidBuffer)
    case Binary(bytes) => Ok(bytes)
  }

  /** The bytes `decodeBufferToString` decodes: at most BUFFER_CHECK_SIZE of
      them, from the start. */
  function CheckedBytes(buf: seq<byte>): (r: seq<byte>)
    ensures |r| == if |buf| < BUFFER_CHECK_SIZE then |buf| else BUFFER_CHECK_SIZE
    ensures r == buf[..|r|]
  {
    if |buf| <= BUFFER_CHECK_SIZE then buf else buf[..BUFFER_CHECK_SIZE]
  }

  /** What `getFileTypeFromTextContent` returns, for a given decoder. */
  function TextContentType(types: Table<Pattern>, decode: seq<byte> -> string, buf: seq<byte>): string
  {
    TextType(types, decode(CheckedBytes(buf)))
  }

  /** Bytes after the first BUFFER_CHECK_SIZE never change the text result. */
  lemma TextIgnoresLaterBytes(types: Table<Pattern>, decode: seq<byte> -> string, buf: seq<byte>, more: seq<byte>)
    requires |buf| >= BUFFER_CHECK_SIZE
    ensures TextContentType(types, decode, buf + more) == TextContentType(types, decode, buf)
  {
    assert CheckedBytes(buf + more) == (buf + more)[..BUFFER_CHECK_SIZE] == buf[..BUFFER_CHECK_SIZE];
  }

  /** What `getFileType` returns: the first signature's key (remapped), but
      only when it is a non-empty string; then the text result, unless that
      is the empty string, which becomes `null`. */
  function FileTypeOf(s: Settings, decode: seq<byte> -> string, input: Input): Result<Option<string>>
  {
    match ValidateBuffer(input)
    case Fail(e) => Fail(e)
    case Ok(buf) =>
      var magic := MagicType(s.magicNumbers, s.edgeCases, buf);
      if magic.Some? && magic.value != "" then Ok(magic)
      else
        var text := TextContentType(s.fileTypeMap, decode, buf);
        Ok(if text != "" then Some(text) else None)
  }

  /** The text content is consulted only when no signature gave a
      non-empty key. */
  lemma FileTypeSpec(s: Settings, decode: seq<byte> -> string, input: Input)
    ensures FileTypeOf(s, decode, input).Fail? <==> input.NotBinary?
    ensures input.Binary? && MagicType(s.magicNumbers, s.edgeCases, input.bytes).Some?
            && MagicType(s.magicNumbers, s.edgeCases, input.bytes).value != "" ==>
              FileTypeOf(s, decode, input) == Ok(MagicType(s.magicNumbers, s.edgeCases, input.bytes))
    ensures input.Binary? && FileTypeOf(s, decode, input).Ok? && FileTypeOf(s, decode, input).value.Some?
            && FileTypeOf(s, decode, input).value != MagicType(s.magicNumbers, s.edgeCases, input.bytes) ==>
              FileTypeOf(s, decode, input).value.value == TextContentType(s.fileTypeMap, decode, input.bytes)
    ensures input.Binary? && !(MagicType(s.magicNumbers, s.edgeCases, input.bytes).Some?
                               && MagicType(s.magicNumbers, s.edgeCases, input.bytes).value != "") ==>
              var text := TextContentType(s.fileTypeMap, decode, input.bytes);
              FileTypeOf(s, decode, input) == Ok(if text != "" then Some(text) else None)
  {
  }

  /** A valid buffer always gets a type unless some text pattern is keyed by
      the empty string: the text fallback yields a key or `txt`. */
  lemma FileTypeNeverNull(s: Settings, decode: seq<byte> -> string, buf: seq<byte>)
    requires !HasKey(s.fileTypeMap, "")
    ensures FileTypeOf(s, decode, Binary(buf)).Ok?
    ensures FileTypeOf(s, decode, Binary(buf)).value.Some?
  {
    TextTypeIsKey(s.fileTypeMap, decode(CheckedBytes(buf)));
  }

  /** `getMimeType`. */
  function MimeType(mimes: map<string, Value>, ext: Value): (r: Result<string>)
    ensures r == Fail(InvalidExtension) <==> ext == Other || ext.s == ""
    ensures r.Ok? <==> ext.Str? && ext.s != "" && ext.s in mimes && mimes[ext.s].Str? && mimes[ext.s].s != ""
    ensures r.Ok? ==> r.value == mimes[ext.s].s
    ensures r.Fail? && r.error != InvalidExtension ==> r.error == UnrecognizedExtension(ext.s)
  {
    if ext == Other || ext.s == "" then Fail(InvalidExtension)
    else if ext.s in mimes && mimes[ext.s].Str? && mimes[ext.s].s != "" then Ok(mimes[ext.s].s)
    else Fail(UnrecognizedExtension(ext.s))
  }

  /** `split('/').shift()`: the text before the first `/`, or all of it. */
  function BeforeSlash(m: string): (r: string)
    ensures |r| <= |m| && r == m[..|r|]
    ensures '/' !in r
    ensures |r| < |m| ==> m[|r|] == '/'
  {
    if m == [] || m[0] == '/' then [] else [m[0]] + BeforeSlash(m[1..])
  }

  /** For a `type/subtype` string the media type is `type`. */
  lemma {:induction false} BeforeSlashOf(t: string, u: string)
    requires '/' !in t
    ensures BeforeSlash(t + "/" + u) == t
  {
    var m := t + "/" + u;
    if t == [] {
      assert m[0] == '/';
    } else {
      assert m[0] == t[0] && m[1..] == t[1..] + "/" + u;
      BeforeSlashOf(t[1..], u);
    }
  }

  /** `getMediaType`: the errors of `getMimeType`, or the part before `/`. */
  function MediaType(mimes: map<string, Value>, ext: Value): (r: Result<string>)
    ensures MimeType(mimes, ext).Fail? ==> r == MimeType(mimes, ext)
    ensures MimeType(mimes, ext).Ok? ==>
              var mime := MimeType(mimes, ext).value;
              r.Ok? && |r.value| <= |mime| && r.value == mime[..|r.value|] && '/' !in r.value
              && (|r.value| < |mime| ==> mime[|r.value|] == '/')
  {
    match MimeType(mimes, ext)
    case Fail(e) => Fail(e)
    case Ok(m) => Ok(BeforeSlash(m))
  }

  /** A key mapped to `type/subtype` has media type `type`. */
  lemma MediaTypeOf(mimes: map<string, Value>, ext: string, t: string, u: string)
    requires ext != "" && ext in mimes && mimes[ext] == Str(t + "/" + u)
    requires '/' !in t
    ensures MediaType(mimes, Str(ext)) == Ok(t)
  {
    BeforeSlashOf(t, u);
  }

  /** Assigning a MIME type makes exactly that key read it back. */
  lemma MimeTypeAfterAdd(mimes: map<string, Value>, ext: string, m: string, other: Value)
    requires ext != "" && m != ""
    requires other != Str(ext)
    ensures MimeType(mimes[ext := Str(m)], Str(ext)) == Ok(m)
    ensures MimeType(mimes[ext := Str(m)], other) == MimeType(mimes, other)
  {
  }

  /** The object `parse` returns. */
  datatype Info = Info(ext: string, mime: string, media: string)

  /** The value `parse` passes on: the type, or `null`. */
  function AsValue(ext: Option<string>): Value
  {
    match ext
    case None => Other
    case Some(k) => Str(k)
  }

  /** What `parse` returns. */
  function Parsed(s: Settings, decode: seq<byte> -> string, input: Input): Result<Info>
  {
    match FileTypeOf(s, decode, input)
    case Fail(e) => Fail(e)
    case Ok(ext) =>
      match MimeType(s.mimeTypeMap, AsValue(ext))
      case Fail(e) => Fail(e)
      case Ok(mime) => Ok(Info(ext.value, mime, BeforeSlash(mime)))
  }

  /** `getFileType` never yields the empty string: a `""` signature key falls
      through to the text result, and a `""` text result becomes `null`. */
  lemma FileTypeNonEmpty(s: Settings, decode: seq<byte> -> string, input: Input)
    ensures FileTypeOf(s, decode, input).Ok? && FileTypeOf(s, decode, input).value.Some? ==>
              FileTypeOf(s, decode, input).value.value != ""
  {
  }

  /** `parse` fails with INVALID_BUFFER exactly for non-binary input, fails
      with INVALID_EXTENSION when no type was found, fails with
      UNRECOGNIZED_EXTENSION when the type found has no MIME string, and
      otherwise returns the detected type with its MIME and media types. */
  lemma ParsedSpec(s: Settings, decode: seq<byte> -> string, input: Input)
    ensures Parsed(s, decode, input) == Fail(InvalidBuffer) <==> input.NotBinary?
    ensures FileTypeOf(s, decode, input) == Ok(None) ==> Parsed(s, decode, input) == Fail(InvalidExtension)
    ensures FileTypeOf(s, decode, input).Ok? && FileTypeOf(s, decode, input).value.Some? ==>
              var k := FileTypeOf(s, decode, input).value.value;
              (MimeType(s.mimeTypeMap, Str(k)).Fail? ==>
                 Parsed(s, decode, input) == Fail(UnrecognizedExtension(k)))
              && (MimeType(s.mimeTypeMap, Str(k)).Ok? ==>
                    var m := MimeType(s.mimeTypeMap, Str(k)).value;
                    Parsed(s, decode, input) == Ok(Info(k, m, BeforeSlash(m))))
    ensures Parsed(s, decode, input).Ok? ==>
              var info := Parsed(s, decode, input).value;
              FileTypeOf(s, decode, input) == Ok(Some(info.ext))
              && MimeType(s.mimeTypeMap, Str(info.ext)) == Ok(info.mime)
              && MediaType(s.mimeTypeMap, Str(info.ext)) == Ok(info.media)
  {
    match FileTypeOf(s, decode, input)
    case Fail(e) =>
      assert e == InvalidBuffer;
    case Ok(ext) =>
      assert input.Binary?;
      if ext.Some? {
        assert AsValue(ext) == Str(ext.value);
        FileTypeNonEmpty(s, decode, input);
      }
  }

  /** The built-in tables, with a host-supplied MIME map. */
  function BuiltIn(mimes: map<string, Value>): Settings
  {
    Settings(MagicTable.MagicNumbers, mimes, FileTypes.FileTypes, MagicTable.EdgeCases)
  }

  /** With the built-in tables every valid buffer gets a type. */
  lemma BuiltInNeverNull(mimes: map<string, Value>, decode: seq<byte> -> string, buf: seq<byte>)
    ensures FileTypeOf(BuiltIn(mimes), decode, Binary(buf)).Ok?
    ensures FileTypeOf(BuiltIn(mimes), decode, Binary(buf)).value.Some?
  {
    FileTypes.FileKeysNonEmpty();
    FileTypeNeverNull(BuiltIn(mimes), decode, buf);
  }

  /** A ZIP local file header is `docx` whatever the text would say. */
  lemma BuiltInZipIsDocx(mimes: map<string, Value>, decode: seq<byte> -> string, buf: seq<byte>)
    requires StartsWith(buf, [0x50, 0x4b, 0x03, 0x04])
    ensures FileTypeOf(BuiltIn(mimes), decode, Binary(buf)) == Ok(Some("docx"))
  {
    MagicTable.ZipIsDocx(buf);
  }

  /** A buffer beginning `this` is `txt` by its signature: the decoder is
      never consulted. */
  lemma BuiltInThisIsTxt(mimes: map<string, Value>, decode: seq<byte> -> string, buf: seq<byte>)
    requires StartsWith(buf, [0x74, 0x68, 0x69, 0x73])
    ensures FileTypeOf(BuiltIn(mimes), decode, Binary(buf)) == Ok(Some("txt"))
  {
    MagicTable.ThisIsTxt(buf);
  }

  /** The detector. Its four tables are updated in place by the `add*`
      methods; `decode` stands for the host's UTF-8 decoder (`TextDecoder`
      in a browser, `Buffer.toString` for a Node `Buffer`). */
  class Mimetics {
    var magicNumbers: Table<seq<int>>
    var mimeTypeMap: map<string, Value>
    var fileTypeMap: Table<Pattern>
    var edgeCases: Table<seq<string>>
    const decode: seq<byte> -> string

    function Current(): Settings
      reads this
    {
      Settings(magicNumbers, mimeTypeMap, fileTypeMap, edgeCases)
    }

    /** The ordered tables never hold a key twice, as the properties of a
        JavaScript object cannot. */
    ghost predicate Valid()
      reads this
    {
      UniqueKeys(magicNumbers) && UniqueKeys(fileTypeMap) && UniqueKeys(edgeCases)
    }

    /** A new instance: the built-in tables, then the options. */
    constructor(decode: seq<byte> -> string, mimes: map<string, Value>, opts: Options)
      ensures Valid()
      ensures Current() == Apply(BuiltIn(mimes), opts)
      ensures this.decode == decode
    {
      this.decode := decode;
      magicNumbers := MagicTable.MagicNumbers;
      mimeTypeMap := mimes;
      fileTypeMap := FileTypes.FileTypes;
      edgeCases := MagicTable.EdgeCases;
      new;
      MagicTable.MagicKeysUnique();
      FileTypes.FileKeysUnique();
      assert UniqueKeys(MagicTable.EdgeCases);
      var _ := SetOptions(opts);
    }

    /** `addMagicNumber`. */
    method AddMagicNumber(ext: string, magicNumber: seq<int>)
      modifies this
      requires Valid()
      ensures Valid()
      ensures magicNumbers == Put(old(magicNumbers), ext, magicNumber)
      ensures mimeTypeMap == old(mimeTypeMap) && fileTypeMap == old(fileTypeMap) && edgeCases == old(edgeCases)
    {
      PutUnique(magicNumbers, ext, magicNumber);
      magicNumbers := Put(magicNumbers, ext, magicNumber);
    }

    /** `addMimeType`. */
    method AddMimeType(ext: string, mimeType: Value)
      modifies this
      requires Valid()
      ensures Valid()
      ensures mimeTypeMap == old(mimeTypeMap)[ext := mimeType]
      ensures magicNumbers == old(magicNumbers) && fileTypeMap == old(fileTypeMap) && edgeCases == old(edgeCases)
    {
      mimeTypeMap := mimeTypeMap[ext := mimeType];
    }

    /** `addFileType`. */
    method AddFileType(ext: string, regex: Pattern)
      modifies this
      requires Valid()
      ensures Valid()
      ensures fileTypeMap == Put(old(fileTypeMap), ext, regex)
      ensures magicNumbers == old(magicNumbers) && mimeTypeMap == old(mimeTypeMap) && edgeCases == old(edgeCases)
    {
      PutUnique(fileTypeMap, ext, regex);
      fileTypeMap := Put(fileTypeMap, ext, regex);
    }

    /** `addEdgeCase`. */
    method AddEdgeCase(specialExt: string, extList: seq<string>)
      modifies this
      requires Valid()
      ensures Valid()
      ensures edgeCases == Put(old(edgeCases), specialExt, extList)
      ensures magicNumbers == old(magicNumbers) && mimeTypeMap == old(mimeTypeMap) && fileTypeMap == old(fileTypeMap)
    {
      PutUnique(edgeCases, specialExt, extList);
      edgeCases := Put(edgeCases, specialExt, extList);
    }

    /** The inner loop of `setOptions` for one present label. */
    method AddEntries(l: Label, opts: Options)
      modifies this
      requires Valid()
      ensures Valid()
      ensures Current() == ApplyLabel(old(Current()), opts, l)
    {
      match l
      case Magic => if opts.magic.Some? { AddMagicNumbers(opts.magic.value); }
      case Mime => if opts.mime.Some? { AddMimeTypes(opts.mime.value); }
      case File => if opts.file.Some? { AddFileTypes(opts.file.value); }
      case Edge => if opts.edge.Some? { AddEdgeCases(opts.edge.value); }
    }

    /** `addMagicNumber` for each entry of `es`, in order. */
    method AddMagicNumbers(es: Table<seq<int>>)
      modifies this
      requires Valid()
      ensures Valid()
      ensures Current() == old(Current()).(magicNumbers := PutAll(old(magicNumbers), es))
    {
      var k := 0;
      while k < |es|
        invariant 0 <= k <= |es|
        invariant Valid()
        invariant Current() == old(Current()).(magicNumbers := PutAll(old(magicNumbers), es[..k]))
      {
        assert es[..k + 1][..k] == es[..k];
        AddMagicNumber(es[k].0, es[k].1);
        k := k + 1;
      }
      assert es[..k] == es;
    }

    /** `addMimeType` for each entry of `es`, in order. */
    method AddMimeTypes(es: Table<Value>)
      modifies this
      requires Valid()
      ensures Valid()
      ensures Current() == old(Current()).(mimeTypeMap := UpdateAll(old(mimeTypeMap), es))
    {
      var k := 0;
      while k < |es|
        invariant 0 <= k <= |es|
        invariant Valid()
        invariant Current() == old(Current()).(mimeTypeMap := UpdateAll(old(mimeTypeMap), es[..k]))
      {
        assert es[..k + 1][..k] == es[..k];
        AddMimeType(es[k].0, es[k].1);
        k := k + 1;
      }
      assert es[..k] == es;
    }

    /** `addFileType` for each entry of `es`, in order. */
    method AddFileTypes(es: Table<Pattern>)
      modifies this
      requires Valid()
      ensures Valid()
      ensures Current() == old(Current()).(fileTypeMap := PutAll(old(fileTypeMap), es))
    {
      var k := 0;
      while k < |es|
        invariant 0 <= k <= |es|
        invariant Valid()
        invariant Current() == old(Current()).(fileTypeMap := PutAll(old(fileTypeMap), es[..k]))
      {
        assert es[..k + 1][..k] == es[..k];
        AddFileType(es[k].0, es[k].1);
        k := k + 1;
      }
      assert es[..k] == es;
    }

    /** `addEdgeCase` for each entry of `es`, in order. */
    method AddEdgeCases(es: Table<seq<string>>)
      modifies this
      requires Valid()
      ensures Valid()
      ensures Current() == old(Current()).(edgeCases := PutAll(old(edgeCases), es))
    {
      var k := 0;
      while k < |es|
        invariant 0 <= k <= |es|
        invariant Valid()
        invariant Current() == old(Current()).(edgeCases := PutAll(old(edgeCases), es[..k]))
      {
        assert es[..k + 1][..k] == es[..k];
        AddEdgeCase(es[k].0, es[k].1);
        k := k + 1;
      }
      assert es[..k] == es;
    }

    /** `setOptions`: every entry of every present label, in order; the
        instance itself is returned. */
    method SetOptions(opts: Options) returns (r: Mimetics)
      modifies this
      requires Valid()
      ensures Valid()
      ensures r == this
      ensures Current() == Apply(old(Current()), opts)
    {
      var i := 0;
      while i < |Labels|
        invariant 0 <= i <= |Labels|
        invariant Valid()
        invariant Current() == ApplyLabels(old(Current()), opts, Labels[..i])
      {
        assert Labels[..i + 1][..i] == Labels[..i];
        AddEntries(Labels[i], opts);
        i := i + 1;
      }
      assert Labels[..i] == Labels;
      return this;
    }

    /** `getFileTypeFromMagicNumbers`. */
    method GetFileTypeFromMagicNumbers(buf: seq<byte>) returns (r: Option<string>)
      ensures r == MagicType(magicNumbers, edgeCases, buf)
    {
      var i := 0;
      while i < |magicNumbers|
        invariant 0 <= i <= |magicNumbers|
        invariant forall j :: 0 <= j < i ==> !SigMatches(magicNumbers[j].1, buf)
      {
        var (ext, magicNumber) := magicNumbers[i];
        if SigMatches(magicNumber, buf) {
          FirstSignatureAt(magicNumbers, buf, i);
          var e := 0;
          while e < |edgeCases|
            invariant 0 <= e <= |edgeCases|
            invariant forall j :: 0 <= j < e ==> ext !in edgeCases[j].1
          {
            var (specialExt, extList) := edgeCases[e];
            if ext in extList {
              FirstWhereAt(edgeCases, ListedIn(ext), e);
              return Some(specialExt);
            }
            e := e + 1;
          }
          RemapSpec(edgeCases, ext);
          return Some(ext);
        }
        i := i + 1;
      }
      FirstSignatureSpec(magicNumbers, buf);
      return None;
    }

    /** `getFileTypeFromTextContent`, with the checked bytes decoded. */
    method GetFileTypeFromTextContent(buf: seq<byte>) returns (r: string)
      ensures r == TextContentType(fileTypeMap, decode, buf)
    {
      var content := decode(CheckedBytes(buf));
      var i := 0;
      while i < |fileTypeMap|
        invariant 0 <= i <= |fileTypeMap|
        invariant forall j :: 0 <= j < i ==> !Matches(fileTypeMap[j].1, content)
      {
        var (fileType, pattern) := fileTypeMap[i];
        if Matches(pattern, content) {
          TextTypeAt(fileTypeMap, content, i);
          return fileType;
        }
        i := i + 1;
      }
      TextTypeSpec(fileTypeMap, content);
      return DEFAULT_FILE_TYPE;
    }

    /** `getFileType`. */
    method GetFileType(input: Input) returns (r: Result<Option<string>>)
      ensures r == FileTypeOf(Current(), decode, input)
    {
      match ValidateBuffer(input)
      case Fail(e) =>
        return Fail(e);
      case Ok(buf) =>
        var magicFileType := GetFileTypeFromMagicNumbers(buf);
        if magicFileType.Some? && magicFileType.value != "" {
          return Ok(magicFileType);
        }
        var text := GetFileTypeFromTextContent(buf);
        return Ok(if text != "" then Some(text) else None);
    }

    /** `parse`. `getMimeType` and `getMediaType` are `MimeType` and
        `MediaType` on this instance's `mimeTypeMap`. */
    method Parse(input: Input) returns (r: Result<Info>)
      ensures r == Parsed(Current(), decode, input)
    {
      var ext := GetFileType(input);
      if ext.Fail? {
        return Fail(ext.error);
      }
      var mime := MimeType(mimeTypeMap, AsValue(ext.value));
      if mime.Fail? {
        return Fail(mime.error);
      }
      var media := MediaType(mimeTypeMap, AsValue(ext.value));
      return Ok(Info(ext.value.value, mime.value, media.value));
    }
  }
}
