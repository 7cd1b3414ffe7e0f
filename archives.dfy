/**
 * The archive an environment is bundled into, and the codec that turns it into
 * bytes and into a fingerprint. The ZIP format and SHA-256/base64url are not
 * modelled: a Codec value carries them as three total functions, and
 * WellFormed states the only facts the core relies on.
 */
module Archives {
  import opened Base

  /** One ZIP entry: its name and its exact bytes. */
  datatype Entry = Entry(name: Path, content: Bytes)

  /** The entries in archive order (for a pushed archive, declared-file order). */
  type Archive = seq<Entry>

  datatype Codec = Codec(
    encode: Archive -> Bytes,          // zip.Writer over the entries, in order
    decode: Bytes -> Option<Archive>,  // zip.NewReader; None when the bytes are not a readable ZIP
    fingerprint: Bytes -> Key)         // base64url (unpadded) of the SHA-256 digest

  /** The base64url alphabet: A-Z, a-z, 0-9, '-' and '_'. */
  predicate IsBase64Url(b: byte) {
    (65 <= b <= 90) || (97 <= b <= 122) || (48 <= b <= 57) || b == 45 || b == 95
  }

  /** An unpadded base64url encoding of 32 bytes. */
  predicate IsFingerprint(k: Key) {
    |k| == 43 && forall i :: 0 <= i < |k| ==> IsBase64Url(k[i])
  }

  /** Reading back a written archive gives its entries, and fingerprints have the fixed format. */
  ghost predicate WellFormed(c: Codec) {
    && (forall a :: c.decode(c.encode(a)) == Some(a))
    && (forall b :: IsFingerprint(c.fingerprint(b)))
  }

  /** The set of entry names. */
  function NameSet(a: Archive): set<Path> {
    set j | 0 <= j < |a| :: a[j].name
  }

  /** The entry names, in archive order: one per entry, and exactly the names in NameSet. */
  function Names(a: Archive): (ns: seq<Path>)
    ensures |ns| == |a|
    ensures forall x :: x in ns <==> x in NameSet(a)
  {
    var ns := seq(|a|, i requires 0 <= i < |a| => a[i].name);
    assert forall x :: x in NameSet(a) ==> x in ns by {
      forall x | x in NameSet(a) ensures x in ns {
        var j :| 0 <= j < |a| && a[j].name == x;
        assert ns[j] == x;
      }
    }
    ns
  }

  lemma NameSetCons(a: Archive)
    requires a != []
    ensures NameSet(a) == {a[0].name} + NameSet(a[1..])
  {
    forall x | x in NameSet(a) ensures x == a[0].name || x in NameSet(a[1..]) {
      var j :| 0 <= j < |a| && a[j].name == x;
      if j > 0 { assert a[1..][j - 1].name == x; }
    }
    forall x | x in NameSet(a[1..]) ensures x in NameSet(a) {
      var j :| 0 <= j < |a[1..]| && a[1..][j].name == x;
      assert a[j + 1].name == x;
    }
  }

  /** zip.Reader.Open followed by a full read: the bytes of the first entry of that name. */
  function Open(a: Archive, name: Path): (r: Option<Bytes>)
    ensures r.Some? <==> name in NameSet(a)
    ensures r.Some? ==> exists i :: 0 <= i < |a| && a[i] == Entry(name, r.value)
  {
    if a == [] then None
    else if a[0].name == name then Some(a[0].content)
    else NameSetCons(a); Open(a[1..], name)
  }
}
