/** The built-in signature table (lib/magic.js) and edge-case table
    (lib/edge.js), and what first-match detection does with them. */
module MagicTable {
  import opened Tables
  import opened Signatures

  /** lib/magic.js, in its property order. */
  const MagicNumbers: Table<seq<int>> := [
    ("jpg", [0xff, 0xd8, 0xff]),                                 //  0
    ("png", [0x89, 0x50, 0x4e, 0x47]),                           //  1
    ("gif", [0x47, 0x49, 0x46, 0x38]),                           //  2
    ("pdf", [0x25, 0x50, 0x44, 0x46]),                           //  3
    ("tif", [0x49, 0x49, 0x2a, 0x00]),                           //  4
    ("tiff", [0x4d, 0x4d, 0x00, 0x2a]),                          //  5
    ("bmp", [0x42, 0x4d]),                                       //  6
    ("ico", [0x00, 0x00, 0x01, 0x00]),                           //  7
    ("webp", [0x52, 0x49, 0x46, 0x46]),                          //  8
    ("mp3", [0xff, 0xfb]),                                       //  9
    ("mp4", [0x00, 0x00, 0x00, 0x1c, 0x66, 0x74, 0x79, 0x70]),   // 10
    ("mov", [0x00, 0x00, 0x00, 0x14, 0x66, 0x74, 0x79, 0x70]),   // 11
    ("avi", [0x52, 0x49, 0x46, 0x46]),                           // 12
    ("mkv", [0x1a, 0x45, 0xdf, 0xa3]),                           // 13
    ("flv", [0x46, 0x4c, 0x56, 0x01]),                           // 14
    ("txt", [0x74, 0x68, 0x69, 0x73]),                           // 15
    ("doc", [0xd0, 0xcf, 0x11, 0xe0]),                           // 16
    ("docx", [0x50, 0x4b, 0x03, 0x04]),                          // 17
    ("xls", [0xd0, 0xcf, 0x11, 0xe0]),                           // 18
    ("xlsx", [0x50, 0x4b, 0x03, 0x04]),                          // 19
    ("ppt", [0xd0, 0xcf, 0x11, 0xe0]),                           // 20
    ("pptx", [0x50, 0x4b, 0x03, 0x04]),                          // 21
    ("zip", [0x50, 0x4b, 0x03, 0x04]),                           // 22
    ("rar", [0x52, 0x61, 0x72, 0x21]),                           // 23
    ("gz", [0x1f, 0x8b]),                                        // 24
    ("7z", [0x37, 0x7a, 0xbc, 0xaf]),                            // 25
    ("tiff_big_endian", [0x4d, 0x4d, 0x00, 0x2a]),               // 26
    ("tiff_little_endian", [0x49, 0x49, 0x2a, 0x00]),            // 27
    ("GIF87a", [0x47, 0x49, 0x46, 0x38, 0x37, 0x61]),            // 28
    ("GIF89a", [0x47, 0x49, 0x46, 0x38, 0x39, 0x61])             // 29
  ]

  /** lib/edge.js. */
  const EdgeCases: Table<seq<string>> := [
    ("tiff", ["tiff_big_endian", "tiff_little_endian"]),
    ("gif", ["GIF87a", "GIF89a"])
  ]

  /** The keys of lib/magic.js that no buffer can produce. */
  const Unreachable: set<string> :=
    {"avi", "xls", "ppt", "xlsx", "pptx", "zip",
     "tiff_big_endian", "tiff_little_endian", "GIF87a", "GIF89a"}

  lemma KeysDistinct0To10()
    ensures forall j, m :: 0 <= j < 10 && 0 <= m < j ==> MagicNumbers[m].0 != MagicNumbers[j].0
  {
  }

  lemma KeysDistinct10To20()
    ensures forall j, m :: 10 <= j < 20 && 0 <= m < j ==> MagicNumbers[m].0 != MagicNumbers[j].0
  {
  }

  lemma KeysDistinct20To25()
    ensures forall j, m :: 20 <= j < 25 && 0 <= m < j ==> MagicNumbers[m].0 != MagicNumbers[j].0
  {
  }

  lemma KeysDistinct25To30()
    ensures forall j, m :: 25 <= j < 30 && 0 <= m < j ==> MagicNumbers[m].0 != MagicNumbers[j].0
  {
  }

  /** The table is an object literal, so its keys are distinct. */
  lemma MagicKeysUnique()
    ensures UniqueKeys(MagicNumbers)
  {
    KeysDistinct0To10();
    KeysDistinct10To20();
    KeysDistinct20To25();
    KeysDistinct25To30();
  }

  lemma MagicKeyOnlyAt(j: nat)
    requires j < |MagicNumbers|
    ensures forall m :: 0 <= m < |MagicNumbers| && MagicNumbers[m].0 == MagicNumbers[j].0 ==> m == j
  {
    MagicKeysUnique();
  }

  /** In each listed pair, entry `j` repeats or extends the signature of the
      earlier entry `i`, so the key of entry `j` is never the first match. */
  lemma Shadows(buf: seq<byte>, i: nat, j: nat)
    requires (i, j) in {(8, 12), (16, 18), (16, 20), (17, 19), (17, 21), (17, 22),
                        (5, 26), (4, 27), (2, 28), (2, 29)}
    ensures j < |MagicNumbers| && FirstSignature(MagicNumbers, buf) != Some(MagicNumbers[j].0)
  {
    MagicKeyOnlyAt(j);
    ExtendedSignatureShadowed(MagicNumbers, buf, i, j);
  }

  /** `avi` (same bytes as the earlier `webp`), `xls`/`ppt` (as `doc`),
      `xlsx`/`pptx`/`zip` (as `docx`), the two `tiff_*` entries (as `tif` and
      `tiff`) and the two `GIF8*a` entries (extensions of `gif`) are never the
      first match. */
  lemma UnreachableKeys(buf: seq<byte>)
    ensures forall k :: k in Unreachable ==> FirstSignature(MagicNumbers, buf) != Some(k)
  {
    ShadowedKeysAre();
    Shadows(buf, 8, 12);
    Shadows(buf, 16, 18);
    Shadows(buf, 16, 20);
    Shadows(buf, 17, 19);
    Shadows(buf, 17, 21);
    Shadows(buf, 17, 22);
    Shadows(buf, 5, 26);
    Shadows(buf, 4, 27);
    Shadows(buf, 2, 28);
    Shadows(buf, 2, 29);
  }

  lemma ShadowedKeysAre()
    ensures MagicNumbers[12].0 == "avi" && MagicNumbers[18].0 == "xls" && MagicNumbers[20].0 == "ppt"
    ensures MagicNumbers[19].0 == "xlsx" && MagicNumbers[21].0 == "pptx" && MagicNumbers[22].0 == "zip"
    ensures MagicNumbers[26].0 == "tiff_big_endian" && MagicNumbers[27].0 == "tiff_little_endian"
    ensures MagicNumbers[28].0 == "GIF87a" && MagicNumbers[29].0 == "GIF89a"
  {
  }

  /** The edge-case lists name only unreachable keys, so with the built-in
      tables the remap never changes the result. */
  lemma EdgeRemapNeverFires(buf: seq<byte>)
    ensures MagicType(MagicNumbers, EdgeCases, buf) == FirstSignature(MagicNumbers, buf)
  {
    UnreachableKeys(buf);
    match FirstSignature(MagicNumbers, buf)
    case None =>
    case Some(k) =>
      assert forall j :: 0 <= j < |EdgeCases| ==> k !in EdgeCases[j].1;
      RemapSpec(EdgeCases, k);
  }

  /** `50 4B 03 04` (a ZIP local file header) comes out as `docx`. */
  lemma ZipIsDocx(buf: seq<byte>)
    requires StartsWith(buf, [0x50, 0x4b, 0x03, 0x04])
    ensures MagicType(MagicNumbers, EdgeCases, buf) == Some("docx")
  {
    assert buf[..4][0] == buf[0];
    SigMatchesStartsWith([0x50, 0x4b, 0x03, 0x04], buf);
    forall j | 0 <= j < 17 ensures !SigMatches(MagicNumbers[j].1, buf) {
      assert MagicNumbers[j].1[0] != buf[0];
    }
    FirstSignatureAt(MagicNumbers, buf, 17);
    EdgeRemapNeverFires(buf);
  }

  /** `D0 CF 11 E0` (an OLE2 compound file) comes out as `doc`. */
  lemma OfficeIsDoc(buf: seq<byte>)
    requires StartsWith(buf, [0xd0, 0xcf, 0x11, 0xe0])
    ensures MagicType(MagicNumbers, EdgeCases, buf) == Some("doc")
  {
    assert buf[..4][0] == buf[0];
    SigMatchesStartsWith([0xd0, 0xcf, 0x11, 0xe0], buf);
    forall j | 0 <= j < 16 ensures !SigMatches(MagicNumbers[j].1, buf) {
      assert MagicNumbers[j].1[0] != buf[0];
    }
    FirstSignatureAt(MagicNumbers, buf, 16);
    EdgeRemapNeverFires(buf);
  }

  /** Every RIFF container (WAV and AVI included) comes out as `webp`. */
  lemma RiffIsWebp(buf: seq<byte>)
    requires StartsWith(buf, [0x52, 0x49, 0x46, 0x46])
    ensures MagicType(MagicNumbers, EdgeCases, buf) == Some("webp")
  {
    assert buf[..4][0] == buf[0];
    SigMatchesStartsWith([0x52, 0x49, 0x46, 0x46], buf);
    forall j | 0 <= j < 8 ensures !SigMatches(MagicNumbers[j].1, buf) {
      assert MagicNumbers[j].1[0] != buf[0];
    }
    FirstSignatureAt(MagicNumbers, buf, 8);
    EdgeRemapNeverFires(buf);
  }

  /** GIF87a and GIF89a both begin `GIF8`, which is the earlier `gif` entry. */
  lemma GifIsGif(buf: seq<byte>)
    requires StartsWith(buf, [0x47, 0x49, 0x46, 0x38])
    ensures MagicType(MagicNumbers, EdgeCases, buf) == Some("gif")
  {
    assert buf[..4][0] == buf[0];
    SigMatchesStartsWith([0x47, 0x49, 0x46, 0x38], buf);
    forall j | 0 <= j < 2 ensures !SigMatches(MagicNumbers[j].1, buf) {
      assert MagicNumbers[j].1[0] != buf[0];
    }
    FirstSignatureAt(MagicNumbers, buf, 2);
    EdgeRemapNeverFires(buf);
  }

  /** Little-endian TIFF (`II*\0`) comes out as `tif`. */
  lemma LittleEndianTiffIsTif(buf: seq<byte>)
    requires StartsWith(buf, [0x49, 0x49, 0x2a, 0x00])
    ensures MagicType(MagicNumbers, EdgeCases, buf) == Some("tif")
  {
    assert buf[..4][0] == buf[0];
    SigMatchesStartsWith([0x49, 0x49, 0x2a, 0x00], buf);
    forall j | 0 <= j < 4 ensures !SigMatches(MagicNumbers[j].1, buf) {
      assert MagicNumbers[j].1[0] != buf[0];
    }
    FirstSignatureAt(MagicNumbers, buf, 4);
    EdgeRemapNeverFires(buf);
  }

  /** Big-endian TIFF (`MM\0*`) comes out as `tiff`. */
  lemma BigEndianTiffIsTiff(buf: seq<byte>)
    requires StartsWith(buf, [0x4d, 0x4d, 0x00, 0x2a])
    ensures MagicType(MagicNumbers, EdgeCases, buf) == Some("tiff")
  {
    assert buf[..4][0] == buf[0];
    SigMatchesStartsWith([0x4d, 0x4d, 0x00, 0x2a], buf);
    forall j | 0 <= j < 5 ensures !SigMatches(MagicNumbers[j].1, buf) {
      assert MagicNumbers[j].1[0] != buf[0];
    }
    FirstSignatureAt(MagicNumbers, buf, 5);
    EdgeRemapNeverFires(buf);
  }

  /** A buffer beginning with the ASCII word `this` is `txt` by signature. */
  lemma ThisIsTxt(buf: seq<byte>)
    requires StartsWith(buf, [0x74, 0x68, 0x69, 0x73])
    ensures MagicType(MagicNumbers, EdgeCases, buf) == Some("txt")
  {
    assert buf[..4][0] == buf[0];
    SigMatchesStartsWith([0x74, 0x68, 0x69, 0x73], buf);
    forall j | 0 <= j < 15 ensures !SigMatches(MagicNumbers[j].1, buf) {
      assert MagicNumbers[j].1[0] != buf[0];
    }
    FirstSignatureAt(MagicNumbers, buf, 15);
    EdgeRemapNeverFires(buf);
  }

  /** The `mp4` and `mov` signatures differ at byte 3, so no buffer matches both. */
  lemma Mp4MovExclusive(buf: seq<byte>)
    ensures !(SigMatches(MagicNumbers[10].1, buf) && SigMatches(MagicNumbers[11].1, buf))
  {
    if SigMatches(MagicNumbers[10].1, buf) {
      assert MagicNumbers[10].1[3] == 0x1c;
      assert 3 < |buf| && buf[3] == 0x1c;
      assert MagicNumbers[11].1[3] == 0x14;
    }
  }
}
