/** Binary signature matching of the first-match detector
    (`getFileTypeFromMagicNumbers`, lib/mimetics.js). */
module Signatures {
  import opened Tables

  /** An element of a `Uint8Array`. */
  type byte = x: int | 0 <= x < 256

  /** `magicNumber.every((byte, ii) => buffer[ii] === byte)`: reading past the
      end of a typed array gives `undefined`, which equals no number, so the
      buffer must be at least as long as the signature and agree with it on
      every position the signature has.
      Signature entries are arbitrary numbers because callers may add any. */
  predicate SigMatches(sig: seq<int>, buf: seq<byte>)
  {
    |sig| <= |buf| && forall i :: 0 <= i < |sig| ==> buf[i] == sig[i]
  }

  /** The buffer begins with the bytes `p`. */
  predicate StartsWith(buf: seq<byte>, p: seq<byte>)
  {
    |p| <= |buf| && buf[..|p|] == p
  }

  /** A signature matches exactly the buffers that begin with it. */
  lemma SigMatchesStartsWith(sig: seq<byte>, buf: seq<byte>)
    ensures SigMatches(sig, buf) <==> StartsWith(buf, sig)
  {
    if StartsWith(buf, sig) {
      forall i | 0 <= i < |sig| ensures buf[i] == sig[i] {
        assert buf[..|sig|][i] == buf[i];
      }
    }
    if SigMatches(sig, buf) {
      assert buf[..|sig|] == sig;
    }
  }

  function MatchesBuffer(buf: seq<byte>): seq<int> -> bool
  {
    sig => SigMatches(sig, buf)
  }

  /** The key of the first signature, in table order, that the buffer matches. */
  function FirstSignature(magic: Table<seq<int>>, buf: seq<byte>): Option<string>
  {
    match FirstWhere(magic, MatchesBuffer(buf))
    case None => None
    case Some(i) => Some(magic[i].0)
  }

  function ListedIn(ext: string): seq<string> -> bool
  {
    list => ext in list
  }

  /** The edge-case remap: the first special key whose list includes `ext`,
      or `ext` itself when no list does. */
  function Remap(edges: Table<seq<string>>, ext: string): string
  {
    match FirstWhere(edges, ListedIn(ext))
    case None => ext
    case Some(i) => edges[i].0
  }

  /** The first signature's key is `None` exactly when nothing matches, and
      otherwise the key of a matching entry that no earlier entry precedes. */
  lemma FirstSignatureSpec(magic: Table<seq<int>>, buf: seq<byte>)
    ensures FirstSignature(magic, buf).None? <==> forall j :: 0 <= j < |magic| ==> !SigMatches(magic[j].1, buf)
    ensures FirstSignature(magic, buf).Some? ==>
              exists i :: 0 <= i < |magic| && magic[i].0 == FirstSignature(magic, buf).value
                          && SigMatches(magic[i].1, buf)
                          && forall j :: 0 <= j < i ==> !SigMatches(magic[j].1, buf)
  {
  }

  /** The remap leaves a key alone unless some list includes it, and then
      gives the key of the first list that does. */
  lemma RemapSpec(edges: Table<seq<string>>, ext: string)
    ensures (forall j :: 0 <= j < |edges| ==> ext !in edges[j].1) ==> Remap(edges, ext) == ext
    ensures (exists j :: 0 <= j < |edges| && ext in edges[j].1) ==>
              exists i :: 0 <= i < |edges| && edges[i].0 == Remap(edges, ext) && ext in edges[i].1
                          && forall j :: 0 <= j < i ==> ext !in edges[j].1
  {
  }

  /** What `getFileTypeFromMagicNumbers` returns: the remapped key of the
      first matching signature, or nothing. */
  function MagicType(magic: Table<seq<int>>, edges: Table<seq<string>>, buf: seq<byte>): Option<string>
  {
    match FirstSignature(magic, buf)
    case None => None
    case Some(k) => Some(Remap(edges, k))
  }

  /** The first match is entry `i` when `i` matches and no earlier entry does;
      later matches are ignored. */
  lemma FirstSignatureAt(magic: Table<seq<int>>, buf: seq<byte>, i: nat)
    requires i < |magic| && SigMatches(magic[i].1, buf)
    requires forall j :: 0 <= j < i ==> !SigMatches(magic[j].1, buf)
    ensures FirstSignature(magic, buf) == Some(magic[i].0)
  {
    FirstWhereAt(magic, MatchesBuffer(buf), i);
  }

  /** The detector's result is `None` exactly when no signature matches, and
      otherwise the remap of the first matching key. */
  lemma MagicTypeSpec(magic: Table<seq<int>>, edges: Table<seq<string>>, buf: seq<byte>)
    ensures MagicType(magic, edges, buf).None? <==> forall j :: 0 <= j < |magic| ==> !SigMatches(magic[j].1, buf)
    ensures forall i :: 0 <= i < |magic| && SigMatches(magic[i].1, buf)
                        && (forall j :: 0 <= j < i ==> !SigMatches(magic[j].1, buf))
                        ==> MagicType(magic, edges, buf) == Some(Remap(edges, magic[i].0))
  {
    FirstSignatureSpec(magic, buf);
    forall i | 0 <= i < |magic| && SigMatches(magic[i].1, buf)
               && (forall j :: 0 <= j < i ==> !SigMatches(magic[j].1, buf))
      ensures MagicType(magic, edges, buf) == Some(Remap(edges, magic[i].0))
    {
      FirstSignatureAt(magic, buf, i);
    }
  }

  /** A buffer that matches a signature matches every prefix of it. */
  lemma PrefixSigMatches(short: seq<int>, long: seq<int>, buf: seq<byte>)
    requires |short| <= |long| && long[..|short|] == short
    requires SigMatches(long, buf)
    ensures SigMatches(short, buf)
  {
    forall k | 0 <= k < |short| ensures buf[k] == short[k] {
      assert long[..|short|][k] == long[k];
    }
  }

  /** A later entry whose signature extends an earlier one can never be the
      first match: every buffer it accepts, the earlier entry accepts too. */
  lemma ExtendedSignatureShadowed(magic: Table<seq<int>>, buf: seq<byte>, i: nat, j: nat)
    requires i < j < |magic|
    requires forall m :: 0 <= m < |magic| && magic[m].0 == magic[j].0 ==> m == j
    requires |magic[i].1| <= |magic[j].1| && magic[j].1[..|magic[i].1|] == magic[i].1
    ensures FirstSignature(magic, buf) != Some(magic[j].0)
  {
    var p := MatchesBuffer(buf);
    if SigMatches(magic[j].1, buf) {
      PrefixSigMatches(magic[i].1, magic[j].1, buf);
    }
    assert p(magic[j].1) ==> p(magic[i].1);
    ShadowedKey(magic, p, i, j);
  }
}
