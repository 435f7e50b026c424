/** Prefixes: their hex names, and the prefix set the meta1 backend keeps
    (`meta1_prefixes_set_s`), seen through the calls the server makes on it. */
module Prefixes {
  import opened Common
  import opened Ascii

  /** A prefix, as the two leading bytes of a container id, in memory order. */
  datatype Prefix = Prefix(b0: byte, b1: byte)

  /** The prefix-to-peers directory. A prefix with no entry is managed by nobody known. */
  type Directory = map<Prefix, seq<string>>

  /** `g_ascii_strtoull` of a two-digit hex string. */
  function HexPairValue(hi: char, lo: char): (b: byte)
    requires IsHexDigit(hi) && IsHexDigit(lo)
  {
    (16 * HexDigitValue(hi) + HexDigitValue(lo)) as byte
  }

  /** `%02X` of one byte. */
  function FormatByte(b: byte): string
  {
    [UpperHexDigit(b as int / 16), UpperHexDigit(b as int % 16)]
  }

  /** The base name of a prefix: `%02X%02X` of its two bytes. */
  function FormatPrefix(p: Prefix): string
  {
    FormatByte(p.b0) + FormatByte(p.b1)
  }

  /** The prefix a valid 4-hex-digit base name stands for: digits 0-1 give the
      first byte, digits 2-3 the second. */
  function DecodePrefix(base: string): Prefix
    requires IsHexa(base, 4)
  {
    Prefix(HexPairValue(base[0], base[1]), HexPairValue(base[2], base[3]))
  }

  /** The prefix a container id routes to: its first two bytes, whatever follows. */
  function PrefixOf(cid: seq<byte>): Prefix
    requires |cid| >= 2
  {
    Prefix(cid[0], cid[1])
  }

  /** Formatting a byte and reading the two digits back gives the byte. */
  lemma HexPairOfFormat(b: byte)
    ensures IsHexDigit(FormatByte(b)[0]) && IsHexDigit(FormatByte(b)[1])
    ensures HexPairValue(FormatByte(b)[0], FormatByte(b)[1]) == b
  {
    var hi, lo := b as int / 16, b as int % 16;
    assert 16 * hi + lo == b as int;
  }

  /** Round trip: the name `_reload_prefixes` prints for a prefix is a valid
      base name, and `_get_peers` decodes it back to the same two bytes. */
  lemma DecodeFormat(p: Prefix)
    ensures IsHexa(FormatPrefix(p), 4)
    ensures DecodePrefix(FormatPrefix(p)) == p
  {
    HexPairOfFormat(p.b0);
    HexPairOfFormat(p.b1);
    var s := FormatPrefix(p);
    assert s[0] == FormatByte(p.b0)[0] && s[1] == FormatByte(p.b0)[1];
    assert s[2] == FormatByte(p.b1)[0] && s[3] == FormatByte(p.b1)[1];
  }

  /** Distinct prefixes have distinct base names. */
  lemma FormatInjective(p: Prefix, q: Prefix)
    ensures FormatPrefix(p) == FormatPrefix(q) <==> p == q
  {
    DecodeFormat(p);
    DecodeFormat(q);
  }

  /** Printing the byte two hex digits stand for gives those digits in upper case. */
  lemma FormatOfHexPair(hi: char, lo: char)
    requires IsHexDigit(hi) && IsHexDigit(lo)
    ensures FormatByte(HexPairValue(hi, lo)) == [UpperChar(hi), UpperChar(lo)]
  {
    var h, l := HexDigitValue(hi), HexDigitValue(lo);
    var v := 16 * h + l;
    assert v / 16 == h && v % 16 == l;
    UpperHexDigitOfValue(hi);
    UpperHexDigitOfValue(lo);
  }

  /** Round trip the other way: decoding a valid base name and printing it again
      gives the name in upper case, so two names denote the same prefix exactly
      when they agree up to case. */
  lemma FormatDecode(base: string)
    requires IsHexa(base, 4)
    ensures FormatPrefix(DecodePrefix(base)) == ToUpper(base)
  {
    FormatOfHexPair(base[0], base[1]);
    FormatOfHexPair(base[2], base[3]);
    assert FormatPrefix(DecodePrefix(base)) == [UpperChar(base[0]), UpperChar(base[1]), UpperChar(base[2]), UpperChar(base[3])];
  }

  /** `meta1_prefixes_is_managed`: the local address is one of the prefix's peers. */
  predicate Managed(dir: Directory, p: Prefix, url: string)
  {
    p in dir && Mentions(dir[p], url)
  }

  /** `meta1_prefixes_get_peers`' answer for a prefix: NULL when it is unmapped. */
  function Lookup(dir: Directory, p: Prefix): Option<seq<string>>
  {
    if p in dir then Some(dir[p]) else None
  }

  /** What `meta1_prefixes_load` answered: an error, or the new directory with
      the list of prefixes whose entry changed. */
  datatype LoadOutcome =
    | LoadFailed(error: Error)
    | Loaded(peers: Directory, updated: seq<Prefix>)

  /** The directory in place after a load: the new one, or the old one kept on error. */
  function AfterLoad(dir: Directory, outcome: LoadOutcome): Directory
  {
    if outcome.Loaded? then outcome.peers else dir
  }

  /** The prefix set owned by the meta1 backend; its directory is replaced wholesale
      by each successful load. */
  class PrefixesSet {
    var peers: Directory

    constructor ()
      ensures peers == map[]
    {
      peers := map[];
    }

    /** `meta1_prefixes_load`, with the directory service's answer as a parameter. */
    method Load(outcome: LoadOutcome) returns (err: Option<Error>, updated: seq<Prefix>)
      modifies this
      ensures peers == AfterLoad(old(peers), outcome)
      ensures outcome.LoadFailed? ==> err == Some(outcome.error) && updated == []
      ensures outcome.Loaded? ==> err.None? && updated == outcome.updated
    {
      if outcome.LoadFailed? {
        return Some(outcome.error), [];
      }
      peers := outcome.peers;
      return None, outcome.updated;
    }

    /** `meta1_prefixes_is_managed` on the current directory. */
    predicate IsManaged(p: Prefix, url: string)
      reads this
    {
      Managed(peers, p, url)
    }

    /** `meta1_prefixes_get_peers` on the current directory: keyed by the first two bytes of `cid`. */
    function GetPeers(cid: seq<byte>): Option<seq<string>>
      requires |cid| >= 2
      reads this
    {
      Lookup(peers, PrefixOf(cid))
    }
  }
}
