/** verifyArchive of verifier.c: the manifest must give every file of the archive its
    digest ("Signature Validation" in the JAR File Specification).

    SHA-1, base64, CRC and decompression are parameters. */
module Verifier {
  import opened Wrappers  // Option
  import opened Strtok
  import opened Bytes
  import opened ZipArchives

  /** What the library functions say about the entries and the digest texts. */
  datatype Library = Library(
    intact: nat -> bool,                     // the CRC of the entry is right
    digest: nat -> Option<seq<byte>>,        // SHA-1 of the entry's contents
    decode: seq<byte> -> Option<seq<byte>>)  // base64 of the size of a digest

  // "Name: ", " ", "SHA1-Digest: ", "META-INF/", ".RSA", ".SF" and "(null)"
  const NAME: seq<byte> := [78, 97, 109, 101, 58, 32]
  const CONTINUATION: seq<byte> := [32]
  const DIGEST: seq<byte> := [83, 72, 65, 49, 45, 68, 105, 103, 101, 115, 116, 58, 32]
  const META_INF: seq<byte> := [77, 69, 84, 65, 45, 73, 78, 70, 47]
  const RSA: seq<byte> := [46, 82, 83, 65]
  const SF: seq<byte> := [46, 83, 70]
  const NULL_TEXT: seq<byte> := [40, 110, 117, 108, 108, 41]
  const SLASH: byte := 47

  function Lower(b: byte): byte { if 65 <= b <= 90 then b + 32 else b }

  /** strncasecmp(m + at, pattern, |pattern|) == 0, for memory that may end there. */
  predicate Matches(m: seq<byte>, at: int, pattern: seq<byte>): (same: bool)
    ensures same ==> 0 <= at && at + |pattern| <= |m|
  {
    0 <= at && at + |pattern| <= |m| && forall i | 0 <= i < |pattern| :: Lower(m[at + i]) == Lower(pattern[i])
  }

  predicate IsEol(b: byte) { b == 13 || b == 10 }

  /** The C string in a buffer. */
  function Text(contents: seq<byte>): (s: seq<byte>)
    ensures s <= contents && 0 !in s && (|s| < |contents| ==> contents[|s|] == 0)
  {
    if contents == [] || contents[0] == 0 then [] else [contents[0]] + Text(contents[1..])
  }

  // ---------------------------------------------------------------- what needs a digest

  /** The signature exemption reads around the name in the mapped archive m. */
  predicate IsSignature(m: seq<byte>, e: ZipEntry) {
    Matches(m, e.nameAt, META_INF) &&
    (Matches(m, e.nameAt + |e.fileName| - 4, RSA) || Matches(m, e.nameAt + |e.fileName| - 3, SF))
  }

  predicate NeedsDigest(m: seq<byte>, es: seq<ZipEntry>, mf: nat, i: nat)
    requires i < |es|
  {
    var e := es[i];
    && i != mf
    && !(e.fileName != [] && e.fileName[|e.fileName|-1] == SLASH && e.uncompLen == 0)
    && !IsSignature(m, e)
  }

  /** For a name that is not empty the name alone decides, although the source compares
      nine bytes of a name that may be shorter. */
  lemma SignatureByName(m: seq<byte>, e: ZipEntry)
    requires e.fileName != [] && e.nameAt + |e.fileName| <= |m|
    requires m[e.nameAt..e.nameAt + |e.fileName|] == e.fileName
    ensures IsSignature(m, e) <==>
      Matches(e.fileName, 0, META_INF) &&
      (Matches(e.fileName, |e.fileName| - 4, RSA) || Matches(e.fileName, |e.fileName| - 3, SF))
  {
    var n, at, name := |e.fileName|, e.nameAt, e.fileName;
    if Matches(m, at, META_INF) && n < |META_INF| { NotInside(m, at, n); }
    Shifted(m, at, name, 0, META_INF);
    Shifted(m, at, name, n - 4, RSA);
    Shifted(m, at, name, n - 3, SF);
  }

  /** For the empty name its neighbours decide: between ".RSA" and "META-INF/" the entry is
      exempt, behind anything else it is not. */
  lemma EmptyNameByNeighbours(e: ZipEntry)
    requires e.fileName == [] && e.nameAt == |RSA|
    ensures IsSignature(RSA + META_INF, e) && !IsSignature([0, 0, 0, 0] + META_INF, e)
  {
    assert Matches(RSA + META_INF, 4, META_INF) && Matches(RSA + META_INF, 0, RSA);
    MatchedAt([0, 0, 0, 0] + META_INF, 0, RSA, 0);
    MatchedAt([0, 0, 0, 0] + META_INF, 1, SF, 0);
  }

  lemma MatchedAt(m: seq<byte>, at: int, pattern: seq<byte>, i: nat)
    requires i < |pattern|
    ensures Matches(m, at, pattern) ==> 0 <= at + i < |m| && Lower(m[at + i]) == Lower(pattern[i])
  {
  }

  /** No beginning of "META-INF/" ends like the name of a signature. */
  lemma NotInside(m: seq<byte>, at: nat, n: nat)
    requires Matches(m, at, META_INF) && 0 < n < |META_INF|
    ensures !Matches(m, at + n - 4, RSA) && !Matches(m, at + n - 3, SF)
  {
    MatchedAt(m, at, META_INF, n - 1);
    if n > 1 { MatchedAt(m, at, META_INF, n - 2); }
    MatchedAt(m, at + n - 4, RSA, 3);
    MatchedAt(m, at + n - 4, RSA, 2);
    MatchedAt(m, at + n - 3, SF, 2);
    MatchedAt(m, at + n - 3, SF, 1);
  }

  lemma Shifted(m: seq<byte>, at: nat, name: seq<byte>, k: int, pattern: seq<byte>)
    requires at + |name| <= |m| && m[at..at + |name|] == name
    ensures 0 <= k && k + |pattern| <= |name| ==> (Matches(m, at + k, pattern) <==> Matches(name, k, pattern))
  {
    if 0 <= k && k + |pattern| <= |name| {
      if Matches(m, at + k, pattern) {
        forall i | 0 <= i < |pattern| ensures Lower(name[k + i]) == Lower(pattern[i]) {
          MatchedAt(m, at + k, pattern, i);
        }
      }
      if Matches(name, k, pattern) {
        forall i | 0 <= i < |pattern| ensures Lower(m[at + k + i]) == Lower(pattern[i]) {
          MatchedAt(name, k, pattern, i);
        }
      }
    }
  }

  // ---------------------------------------------------------------- stanzas

  datatype Stanza = Stanza(name: seq<byte>, digest: seq<byte>)

  // Complete stanzas so far, and the name of the one being read.
  datatype Scan = Scan(stanzas: seq<Stanza>, pending: Option<seq<byte>>)

  function ScanLine(s: Scan, line: seq<byte>): Option<Scan> {
    if Matches(line, 0, NAME) then
      if s.pending.Some? then None else Some(s.(pending := Some(line[|NAME|..])))
    else if Matches(line, 0, CONTINUATION) then
      Some(s.(pending := Some((if s.pending.Some? then s.pending.value else NULL_TEXT) + line[|CONTINUATION|..])))
    else if Matches(line, 0, DIGEST) then
      if s.pending.None? then None else Some(Scan(s.stanzas + [Stanza(s.pending.value, line[|DIGEST|..])], None))
    else Some(s)
  }

  function ScanLines(lines: seq<seq<byte>>): Option<Scan> {
    if lines == [] then Some(Scan([], None))
    else
      match ScanLines(lines[..|lines|-1])
      case None => None
      case Some(s) => ScanLine(s, lines[|lines|-1])
  }

  /** An error stays an error, and complete stanzas stay. */
  lemma {:induction false} ScanGrows(lines: seq<seq<byte>>, n: nat)
    requires n <= |lines|
    ensures ScanLines(lines[..n]).None? ==> ScanLines(lines).None?
    ensures ScanLines(lines).Some? ==>
      ScanLines(lines[..n]).Some? && ScanLines(lines[..n]).value.stanzas <= ScanLines(lines).value.stanzas
    decreases |lines|
  {
    if n == |lines| {
      assert lines[..n] == lines;
    } else {
      var front := lines[..|lines|-1];
      assert front[..n] == lines[..n];
      ScanGrows(front, n);
    }
  }

  // ---------------------------------------------------------------- the property

  /** A stanza that names a file which needs a digest, and gives the right one. */
  predicate Confirms(lib: Library, m: seq<byte>, es: seq<ZipEntry>, mf: nat, st: Stanza) {
    var found := LinearFind(es, st.name);
    && found.Some? && found.value.index < |es|
    && lib.intact(found.value.index) && NeedsDigest(m, es, mf, found.value.index)
    && lib.decode(st.digest).Some? && lib.digest(found.value.index) == lib.decode(st.digest)
  }

  ghost predicate DistinctNames(stanzas: seq<Stanza>) {
    forall j, k | 0 <= j < k < |stanzas| :: stanzas[j].name != stanzas[k].name
  }

  ghost predicate AllConfirm(lib: Library, m: seq<byte>, es: seq<ZipEntry>, mf: nat, stanzas: seq<Stanza>) {
    forall k | 0 <= k < |stanzas| :: Confirms(lib, m, es, mf, stanzas[k])
  }

  /** Some stanza is about entry i. */
  ghost predicate Covered(es: seq<ZipEntry>, stanzas: seq<Stanza>, i: nat) {
    exists k | 0 <= k < |stanzas| :: LinearFind(es, stanzas[k].name).Some? && LinearFind(es, stanzas[k].name).value.index == i
  }

  /** The manifest confirms the archive. */
  ghost predicate Verified(lib: Library, m: seq<byte>, es: seq<ZipEntry>, mf: nat, lines: seq<seq<byte>>) {
    ScanLines(lines).Some? &&
    var stanzas := ScanLines(lines).value.stanzas;
    && AllConfirm(lib, m, es, mf, stanzas) && DistinctNames(stanzas)
    && forall i | 0 <= i < |es| && NeedsDigest(m, es, mf, i) :: Covered(es, stanzas, i)
  }

  /** In a verified archive every file that needs one has exactly one digest, which is
      that of its contents and stands under its name. */
  lemma EveryFileHasItsDigest(lib: Library, m: seq<byte>, es: seq<ZipEntry>, mf: nat, lines: seq<seq<byte>>,
      i: nat) returns (k: nat)
    requires Verified(lib, m, es, mf, lines) && i < |es| && NeedsDigest(m, es, mf, i)
    ensures var stanzas := ScanLines(lines).value.stanzas;
      && k < |stanzas| && stanzas[k].name == es[i].fileName
      && lib.decode(stanzas[k].digest).Some? && lib.digest(i) == lib.decode(stanzas[k].digest)
      && forall j | 0 <= j < |stanzas| && j != k :: stanzas[j].name != es[i].fileName
  {
    var stanzas := ScanLines(lines).value.stanzas;
    assert Covered(es, stanzas, i);
    k :| 0 <= k < |stanzas| && LinearFind(es, stanzas[k].name).Some? && LinearFind(es, stanzas[k].name).value.index == i;
    LinearFindIsFirst(es, stanzas[k].name);
    assert Confirms(lib, m, es, mf, stanzas[k]);
  }

  /** A verified archive has no two such files of the same name. */
  lemma NoDuplicates(lib: Library, m: seq<byte>, es: seq<ZipEntry>, mf: nat, lines: seq<seq<byte>>, i: nat, j: nat)
    requires Verified(lib, m, es, mf, lines) && i < j < |es|
    requires NeedsDigest(m, es, mf, i) && NeedsDigest(m, es, mf, j)
    ensures es[i].fileName != es[j].fileName
  {
    var stanzas := ScanLines(lines).value.stanzas;
    assert Covered(es, stanzas, j);
    var k :| 0 <= k < |stanzas| && LinearFind(es, stanzas[k].name).Some? && LinearFind(es, stanzas[k].name).value.index == j;
    LinearFindIsFirst(es, stanzas[k].name);
  }

  // ---------------------------------------------------------------- verifyArchive

  /** Flags say which entries still need a digest. */
  ghost predicate Flags(unverified: seq<bool>, m: seq<byte>, es: seq<ZipEntry>, mf: nat, stanzas: seq<Stanza>) {
    && |unverified| == |es|
    && forall i | 0 <= i < |es| :: unverified[i] <==> NeedsDigest(m, es, mf, i) && !Covered(es, stanzas, i)
  }

  method MarkEntries(m: seq<byte>, es: seq<ZipEntry>, mf: nat) returns (unverified: array<bool>)
    ensures fresh(unverified) && Flags(unverified[..], m, es, mf, [])
  {
    unverified := new bool[|es|](_ => false);
    for i := 0 to |es|
      invariant forall k | 0 <= k < i :: unverified[k] <==> NeedsDigest(m, es, mf, k)
      invariant forall k | i <= k < |es| :: !unverified[k]
    {
      if NeedsDigest(m, es, mf, i) {
        unverified[i] := true;
      }
    }
  }

  lemma CoveredGrows(es: seq<ZipEntry>, stanzas: seq<Stanza>, st: Stanza, i: nat)
    ensures Covered(es, stanzas + [st], i) <==>
      Covered(es, stanzas, i) || (LinearFind(es, st.name).Some? && LinearFind(es, st.name).value.index == i)
  {
    var more := stanzas + [st];
    if Covered(es, stanzas, i) {
      var k :| 0 <= k < |stanzas| && LinearFind(es, stanzas[k].name).Some? && LinearFind(es, stanzas[k].name).value.index == i;
      assert more[k] == stanzas[k];
    }
    if LinearFind(es, st.name).Some? && LinearFind(es, st.name).value.index == i {
      assert more[|stanzas|] == st;
    }
  }

  /** One digest line: accepted if and only if the stanza confirms an entry that no
      earlier stanza was about. */
  method CheckStanza(archive: ZipArchive, lib: Library, m: seq<byte>, mf: nat, st: Stanza,
      unverified: array<bool>, ghost stanzas: seq<Stanza>) returns (ok: bool)
    requires archive.Valid() && Flags(unverified[..], m, archive.pEntries[..], mf, stanzas)
    requires unverified != archive.pHash.slots as object
    modifies unverified
    ensures var es := archive.pEntries[..];
      ok <==> Confirms(lib, m, es, mf, st) && !Covered(es, stanzas, LinearFind(es, st.name).value.index)
    ensures ok ==> Flags(unverified[..], m, archive.pEntries[..], mf, stanzas + [st])
  {
    ghost var es := archive.pEntries[..];
    var found := archive.FindEntry(st.name);
    LinearFindIsFirst(es, st.name);
    if found.None? {
      return false;
    }
    var i := found.value.index;
    if !lib.intact(i) || !unverified[i] {
      return false;
    }
    var expected, actual := lib.decode(st.digest), lib.digest(i);
    if expected.None? || actual != expected {
      return false;
    }
    unverified[i] := false;
    forall k | 0 <= k < |es| ensures Covered(es, stanzas + [st], k) <==> Covered(es, stanzas, k) || k == i {
      CoveredGrows(es, stanzas, st, k);
    }
    ok := true;
  }

  /** A stanza that is not accepted spoils the manifest, whatever follows. */
  lemma Rejected(lib: Library, m: seq<byte>, es: seq<ZipEntry>, mf: nat, lines: seq<seq<byte>>, n: nat,
      stanzas: seq<Stanza>, st: Stanza)
    requires n <= |lines| && ScanLines(lines[..n]).Some? && ScanLines(lines[..n]).value.stanzas == stanzas + [st]
    requires Confirms(lib, m, es, mf, st) ==>
      AllConfirm(lib, m, es, mf, stanzas) && Covered(es, stanzas, LinearFind(es, st.name).value.index)
    ensures !Verified(lib, m, es, mf, lines)
  {
    ScanGrows(lines, n);
    if Verified(lib, m, es, mf, lines) {
      var all := ScanLines(lines).value.stanzas;
      assert all[|stanzas|] == st;
      hide ScanLines, NeedsDigest;
      ConfirmedOnce(lib, m, es, mf, all, stanzas, st);
    }
  }

  lemma ConfirmedOnce(lib: Library, m: seq<byte>, es: seq<ZipEntry>, mf: nat, all: seq<Stanza>, stanzas: seq<Stanza>,
      st: Stanza)
    requires stanzas + [st] <= all && AllConfirm(lib, m, es, mf, all) && DistinctNames(all)
    ensures Confirms(lib, m, es, mf, st) && !Covered(es, stanzas, LinearFind(es, st.name).value.index)
  {
    assert all[|stanzas|] == st;
    hide Confirms;
    LinearFindIsFirst(es, st.name);
    forall k | 0 <= k < |stanzas| ensures stanzas[k].name != st.name { assert all[k] == stanzas[k]; }
    forall k | 0 <= k < |stanzas| { LinearFindIsFirst(es, stanzas[k].name); }
  }

  lemma StillDistinct(es: seq<ZipEntry>, stanzas: seq<Stanza>, st: Stanza)
    requires DistinctNames(stanzas) && LinearFind(es, st.name).Some?
    requires !Covered(es, stanzas, LinearFind(es, st.name).value.index)
    ensures DistinctNames(stanzas + [st])
  {
    forall j | 0 <= j < |stanzas| ensures stanzas[j].name != st.name {
      NotCovered(es, stanzas, st, j);
    }
  }

  lemma NotCovered(es: seq<ZipEntry>, stanzas: seq<Stanza>, st: Stanza, j: nat)
    requires j < |stanzas| && LinearFind(es, st.name).Some?
    requires !Covered(es, stanzas, LinearFind(es, st.name).value.index)
    ensures stanzas[j].name != st.name
  {
  }

  /** The loop over the manifest's lines; what is left in the source when it was not left
      with an error. */
  method ScanManifest(archive: ZipArchive, lib: Library, m: seq<byte>, mf: nat, text: seq<byte>, unverified: array<bool>)
      returns (ok: bool, ghost stanzas: seq<Stanza>)
    requires archive.Valid() && Flags(unverified[..], m, archive.pEntries[..], mf, [])
    requires unverified != archive.pHash.slots as object
    modifies unverified
    ensures !ok ==> !Verified(lib, m, archive.pEntries[..], mf, Split(text, IsEol))
    ensures ok ==> ScanLines(Split(text, IsEol)).Some? && stanzas == ScanLines(Split(text, IsEol)).value.stanzas
    ensures ok ==> AllConfirm(lib, m, archive.pEntries[..], mf, stanzas) && DistinctNames(stanzas)
    ensures ok ==> Flags(unverified[..], m, archive.pEntries[..], mf, stanzas)
  {
    hide Verified, Confirms, Covered, Flags, LinearFind, Split, ZipArchive.Valid, IsIndexOf, Sorted, ValidNames,
      NoneOf, Matches;
    ghost var es, lines := archive.pEntries[..], Split(text, IsEol);
    var name: Option<seq<byte>>, pos := None, 0;
    ghost var n := 0;
    stanzas := [];
    assert text[0..] == text;
    while true
      invariant pos <= |text| && n <= |lines| && lines[n..] == Split(text[pos..], IsEol)
      invariant archive.Valid() && archive.pEntries[..] == es
      invariant ScanLines(lines[..n]) == Some(Scan(stanzas, name))
      invariant AllConfirm(lib, m, es, mf, stanzas) && DistinctNames(stanzas)
      invariant Flags(unverified[..], m, es, mf, stanzas)
      decreases |lines| - n
    {
      var piece;
      piece, pos := NextPiece(text, pos, IsEol);
      if piece.None? {
        assert lines[..n] == lines;
        return true, stanzas;
      }
      var line := piece.value;
      assert lines[n] == line && lines[n + 1..] == lines[n..][1..];
      assert lines[..n + 1][..n] == lines[..n];
      n := n + 1;
      if Matches(line, 0, NAME) {
        if name.Some? {
          GivesUp(lib, m, es, mf, lines, n);
          return false, stanzas;
        }
        name := Some(line[|NAME|..]);
      } else if Matches(line, 0, CONTINUATION) {
        name := Some((if name.Some? then name.value else NULL_TEXT) + line[|CONTINUATION|..]);
      } else if Matches(line, 0, DIGEST) {
        if name.None? {
          GivesUp(lib, m, es, mf, lines, n);
          return false, stanzas;
        }
        var st := Stanza(name.value, line[|DIGEST|..]);
        var confirmed := CheckStanza(archive, lib, m, mf, st, unverified, stanzas);
        if !confirmed {
          Rejected(lib, m, es, mf, lines, n, stanzas, st);
          return false, stanzas;
        }
        FoundIfConfirmed(lib, m, es, mf, st);
        StillDistinct(es, stanzas, st);
        name, stanzas := None, stanzas + [st];
      }
    }
  }

  lemma FoundIfConfirmed(lib: Library, m: seq<byte>, es: seq<ZipEntry>, mf: nat, st: Stanza)
    requires Confirms(lib, m, es, mf, st)
    ensures LinearFind(es, st.name).Some?
  {
  }

  lemma GivesUp(lib: Library, m: seq<byte>, es: seq<ZipEntry>, mf: nat, lines: seq<seq<byte>>, n: nat)
    requires n <= |lines| && ScanLines(lines[..n]).None?
    ensures !Verified(lib, m, es, mf, lines)
  {
    ScanGrows(lines, n);
  }

  method NoneLeft(unverified: array<bool>) returns (ok: bool)
    ensures ok == forall i | 0 <= i < unverified.Length :: !unverified[..][i]
  {
    var i := 0;
    while i < unverified.Length && !unverified[i]
      invariant 0 <= i <= unverified.Length && forall k | 0 <= k < i :: !unverified[k]
    {
      i := i + 1;
    }
    if i < unverified.Length { assert unverified[..][i]; }
    ok := i == unverified.Length;
  }

  lemma AllCleared(m: seq<byte>, es: seq<ZipEntry>, mf: nat, stanzas: seq<Stanza>, unverified: seq<bool>)
    requires Flags(unverified, m, es, mf, stanzas)
    ensures (forall i | 0 <= i < |unverified| :: !unverified[i]) ==
      forall i | 0 <= i < |es| && NeedsDigest(m, es, mf, i) :: Covered(es, stanzas, i)
  {
  }

  /** The entries are marked, the manifest confirms them one by one, and none is left. */
  method CheckEntries(archive: ZipArchive, lib: Library, m: seq<byte>, mf: nat, text: seq<byte>) returns (ok: bool)
    requires archive.Valid()
    ensures ok <==> Verified(lib, m, archive.pEntries[..], mf, Split(text, IsEol))
  {
    hide Flags, ScanLines, Covered, NeedsDigest, AllConfirm, DistinctNames, Split;
    ghost var es, lines := archive.pEntries[..], Split(text, IsEol);
    var unverified := MarkEntries(m, archive.pEntries[..], mf);
    ghost var stanzas;
    ok, stanzas := ScanManifest(archive, lib, m, mf, text, unverified);
    if !ok {
      return;
    }
    ok := NoneLeft(unverified);
    AllCleared(m, es, mf, stanzas, unverified[..]);
  }

  /** verifyArchive succeeds if and only if the manifest confirms the archive. */
  method VerifyArchive(archive: ZipArchive, lib: Library, m: seq<byte>, mf: nat,
      contents: Option<seq<byte>>) returns (ok: bool)
    requires archive.Valid()
    ensures ok <==> contents.Some? && Verified(lib, m, archive.pEntries[..], mf, Split(Text(contents.value), IsEol))
    ensures NamesInPlace(m, archive.pEntries[..]) && AllNamed(archive.pEntries[..]) ==>
      (ok <==> contents.Some? && ConfirmedBy(lib, archive.pEntries[..], mf, Split(Text(contents.value), IsEol)))
  {
    hide *;
    if contents.None? {
      return false;
    }
    ok := CheckEntries(archive, lib, m, mf, Text(contents.value));
    if NamesInPlace(m, archive.pEntries[..]) && AllNamed(archive.pEntries[..]) {
      VerifiedIff(lib, m, archive.pEntries[..], mf, Split(Text(contents.value), IsEol));
    }
  }

  // ---------------------------------------------------------------- what success means

  /** A byte is this character, or the lower-case letter for an upper-case one, or the other
      way round. */
  predicate IsChar(b: byte, c: char) {
    b == c as int || ('A' <= c <= 'Z' && b == c as int + 32) || ('a' <= c <= 'z' && b == c as int - 32)
  }

  predicate StartsWith(s: seq<byte>, text: string) {
    |text| <= |s| && forall i | 0 <= i < |text| :: IsChar(s[i], text[i])
  }

  predicate EndsWith(s: seq<byte>, text: string) {
    |text| <= |s| && forall i | 0 <= i < |text| :: IsChar(s[|s| - |text| + i], text[i])
  }

  /** The manifest itself, directories, and signatures, by name and length. */
  predicate Exempt(es: seq<ZipEntry>, mf: nat, i: nat)
    requires i < |es|
  {
    var name := es[i].fileName;
    || i == mf
    || (EndsWith(name, "/") && es[i].uncompLen == 0)
    || (StartsWith(name, "META-INF/") && (EndsWith(name, ".RSA") || EndsWith(name, ".SF")))
  }

  lemma MatchesText(m: seq<byte>, at: nat, pattern: seq<byte>, text: string)
    requires at + |pattern| <= |m| && |text| == |pattern|
    requires forall i | 0 <= i < |text| :: pattern[i] == text[i] as int
    ensures Matches(m, at, pattern) <==> forall i | 0 <= i < |text| :: IsChar(m[at + i], text[i])
  {
    if Matches(m, at, pattern) {
      forall i | 0 <= i < |text| ensures IsChar(m[at + i], text[i]) { MatchedAt(m, at, pattern, i); }
    }
    if forall i | 0 <= i < |text| :: IsChar(m[at + i], text[i]) {
      forall i | 0 <= i < |pattern| ensures Lower(m[at + i]) == Lower(pattern[i]) {
        assert IsChar(m[at + i], text[i]);
      }
    }
  }

  lemma LineMatches(line: seq<byte>, pattern: seq<byte>, text: string)
    requires |text| == |pattern| && forall i | 0 <= i < |text| :: pattern[i] == text[i] as int
    ensures Matches(line, 0, pattern) <==> StartsWith(line, text)
  {
    if |pattern| <= |line| { MatchesText(line, 0, pattern, text); }
  }

  lemma EndMatches(name: seq<byte>, pattern: seq<byte>, text: string)
    requires |text| == |pattern| && forall i | 0 <= i < |text| :: pattern[i] == text[i] as int
    ensures Matches(name, |name| - |pattern|, pattern) <==> EndsWith(name, text)
  {
    if |pattern| <= |name| { MatchesText(name, |name| - |pattern|, pattern, text); }
  }

  lemma EndsInSlash(name: seq<byte>)
    ensures EndsWith(name, "/") <==> name != [] && name[|name|-1] == 47
  {
    if name != [] && EndsWith(name, "/") { assert IsChar(name[|name| - 1 + 0], "/"[0]); }
  }

  /** For entries with a name, these are exactly the ones that need no digest. */
  lemma NeedsDigestIff(m: seq<byte>, es: seq<ZipEntry>, mf: nat, i: nat)
    requires i < |es| && NameInPlace(m, es[i]) && es[i].fileName != []
    ensures NeedsDigest(m, es, mf, i) <==> !Exempt(es, mf, i)
  {
    var e, name := es[i], es[i].fileName;
    SignatureByName(m, e);
    LineMatches(name, META_INF, "META-INF/");
    EndMatches(name, RSA, ".RSA");
    EndMatches(name, SF, ".SF");
    EndsInSlash(name);
    hide Matches, StartsWith, EndsWith, IsSignature, NameInPlace;
  }

  /** A stanza gives the right digest of the first entry of its name, which must be intact and
      not exempt. */
  ghost predicate GivesDigest(lib: Library, es: seq<ZipEntry>, mf: nat, st: Stanza, i: nat)
    requires i < |es|
  {
    && es[i].fileName == st.name && (forall j | 0 <= j < i :: es[j].fileName != st.name) && !Exempt(es, mf, i)
    && lib.intact(i) && lib.digest(i).Some? && lib.decode(st.digest) == lib.digest(i)
  }

  ghost predicate IsRight(lib: Library, es: seq<ZipEntry>, mf: nat, st: Stanza) {
    exists i | 0 <= i < |es| :: GivesDigest(lib, es, mf, st, i)
  }

  ghost predicate HasDigest(lib: Library, es: seq<ZipEntry>, mf: nat, stanzas: seq<Stanza>, i: nat)
    requires i < |es|
  {
    exists k | 0 <= k < |stanzas| :: GivesDigest(lib, es, mf, stanzas[k], i)
  }

  /** Every stanza does, no two for the same entry, and every entry that is not exempt has one. */
  ghost predicate Confirmed(lib: Library, es: seq<ZipEntry>, mf: nat, stanzas: seq<Stanza>) {
    && (forall k | 0 <= k < |stanzas| :: IsRight(lib, es, mf, stanzas[k]))
    && (forall j, k | 0 <= j < k < |stanzas| :: stanzas[j].name != stanzas[k].name)
    && (forall i | 0 <= i < |es| && !Exempt(es, mf, i) :: HasDigest(lib, es, mf, stanzas, i))
  }

  ghost predicate ConfirmedBy(lib: Library, es: seq<ZipEntry>, mf: nat, lines: seq<seq<byte>>) {
    ScanLines(lines).Some? && Confirmed(lib, es, mf, ScanLines(lines).value.stanzas)
  }

  ghost predicate AllNamed(es: seq<ZipEntry>) {
    forall i | 0 <= i < |es| :: es[i].fileName != []
  }

  lemma GivesIff(lib: Library, m: seq<byte>, es: seq<ZipEntry>, mf: nat, st: Stanza, i: nat)
    requires NamesInPlace(m, es) && AllNamed(es) && i < |es|
    ensures GivesDigest(lib, es, mf, st, i) <==>
      Confirms(lib, m, es, mf, st) && LinearFind(es, st.name).value.index == i
  {
    var found := LinearFind(es, st.name);
    LinearFindIsFirst(es, st.name);
    assert NameInPlace(m, es[i]) && es[i].fileName != [];
    NeedsDigestIff(m, es, mf, i);
    hide LinearFind, NeedsDigest, Exempt, NameInPlace;
    if found.Some? && found.value.index != i && es[i].fileName == st.name {
      assert found.value.index < i;
      assert es[found.value.index].fileName == st.name;
    }
  }

  lemma ConfirmsIff(lib: Library, m: seq<byte>, es: seq<ZipEntry>, mf: nat, st: Stanza)
    requires NamesInPlace(m, es) && AllNamed(es)
    ensures Confirms(lib, m, es, mf, st) <==> IsRight(lib, es, mf, st)
  {
    forall i | 0 <= i < |es| ensures GivesDigest(lib, es, mf, st, i) <==>
      Confirms(lib, m, es, mf, st) && LinearFind(es, st.name).value.index == i
    {
      GivesIff(lib, m, es, mf, st, i);
    }
    if Confirms(lib, m, es, mf, st) {
      var i := LinearFind(es, st.name).value.index;
      assert GivesDigest(lib, es, mf, st, i);
    }
  }

  /** An archive of entries with names is verified if and only if the manifest can be read and
      its stanzas confirm it. */
  lemma VerifiedIff(lib: Library, m: seq<byte>, es: seq<ZipEntry>, mf: nat, lines: seq<seq<byte>>)
    requires NamesInPlace(m, es) && AllNamed(es)
    ensures Verified(lib, m, es, mf, lines) <==> ConfirmedBy(lib, es, mf, lines)
  {
    hide ScanLines, LinearFind, Exempt, NeedsDigest, Confirms, GivesDigest, IsRight, HasDigest, NamesInPlace, AllNamed;
    if ScanLines(lines).Some? {
      var stanzas := ScanLines(lines).value.stanzas;
      AllConfirmIff(lib, m, es, mf, stanzas);
      if AllConfirm(lib, m, es, mf, stanzas) { AllCoveredIff(lib, m, es, mf, stanzas); }
    }
  }

  lemma AllConfirmIff(lib: Library, m: seq<byte>, es: seq<ZipEntry>, mf: nat, stanzas: seq<Stanza>)
    requires NamesInPlace(m, es) && AllNamed(es)
    ensures AllConfirm(lib, m, es, mf, stanzas) <==>
      forall k | 0 <= k < |stanzas| :: IsRight(lib, es, mf, stanzas[k])
  {
    hide Confirms, IsRight, NamesInPlace, AllNamed;
    forall k | 0 <= k < |stanzas|
      ensures Confirms(lib, m, es, mf, stanzas[k]) <==> IsRight(lib, es, mf, stanzas[k])
    {
      ConfirmsIff(lib, m, es, mf, stanzas[k]);
    }
  }

  lemma AllCoveredIff(lib: Library, m: seq<byte>, es: seq<ZipEntry>, mf: nat, stanzas: seq<Stanza>)
    requires NamesInPlace(m, es) && AllNamed(es) && AllConfirm(lib, m, es, mf, stanzas)
    ensures (forall i | 0 <= i < |es| && NeedsDigest(m, es, mf, i) :: Covered(es, stanzas, i)) <==>
      forall i | 0 <= i < |es| && !Exempt(es, mf, i) :: HasDigest(lib, es, mf, stanzas, i)
  {
    hide Confirms, HasDigest, NeedsDigest, Exempt, LinearFind, NameInPlace, Covered, AllConfirm;
    forall i | 0 <= i < |es|
      ensures NeedsDigest(m, es, mf, i) <==> !Exempt(es, mf, i)
      ensures Covered(es, stanzas, i) <==> HasDigest(lib, es, mf, stanzas, i)
    {
      assert NameInPlace(m, es[i]) && es[i].fileName != [];
      NeedsDigestIff(m, es, mf, i);
      CoveredIff(lib, m, es, mf, stanzas, i);
    }
  }

  lemma CoveredIff(lib: Library, m: seq<byte>, es: seq<ZipEntry>, mf: nat, stanzas: seq<Stanza>, i: nat)
    requires NamesInPlace(m, es) && AllNamed(es) && i < |es| && AllConfirm(lib, m, es, mf, stanzas)
    ensures Covered(es, stanzas, i) <==> HasDigest(lib, es, mf, stanzas, i)
  {
    forall k | 0 <= k < |stanzas|
      ensures GivesDigest(lib, es, mf, stanzas[k], i) <==>
        LinearFind(es, stanzas[k].name).Some? && LinearFind(es, stanzas[k].name).value.index == i
    {
      GivesIff(lib, m, es, mf, stanzas[k], i);
      assert Confirms(lib, m, es, mf, stanzas[k]);
    }
    hide LinearFind, GivesDigest;
  }

  // ---------------------------------------------------------------- what a manifest says

  /** What each line of a manifest does, and which lines spoil it. */
  lemma LineMeans(s: Scan, line: seq<byte>)
    ensures ScanLine(s, line) ==
      if StartsWith(line, "Name: ") then
        if s.pending.Some? then None else Some(Scan(s.stanzas, Some(line[6..])))
      else if StartsWith(line, " ") then
        // without a name before it, to the text "(null)"
        Some(Scan(s.stanzas, Some((if s.pending.Some? then s.pending.value else [40, 110, 117, 108, 108, 41]) + line[1..])))
      else if StartsWith(line, "SHA1-Digest: ") then
        if s.pending.None? then None else Some(Scan(s.stanzas + [Stanza(s.pending.value, line[13..])], None))
      else Some(s)
  {
    LineMatches(line, NAME, "Name: ");
    LineMatches(line, CONTINUATION, " ");
    LineMatches(line, DIGEST, "SHA1-Digest: ");
    hide Matches, StartsWith;
  }
}
