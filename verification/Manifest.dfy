/** Writing the manifests that verifier.c reads ("JAR Manifest" in the JAR File
    Specification): names folded over several lines, lines that say other things, and either
    kind of line end. */
module Manifests {
  import opened Wrappers  // Option
  import opened Strtok
  import opened Bytes
  import opened Verifier

  // A name in one or more pieces, what stands between it and its digest, and the digest.
  datatype Section = Section(name: seq<byte>, folded: seq<seq<byte>>, others: seq<seq<byte>>, digest: seq<byte>)

  predicate IsOther(line: seq<byte>) {
    !StartsWith(line, "Name: ") && !StartsWith(line, " ") && !StartsWith(line, "SHA1-Digest: ")
  }

  predicate Writable(s: Section) { forall i | 0 <= i < |s.others| :: IsOther(s.others[i]) }

  function Unfolded(name: seq<byte>, folded: seq<seq<byte>>): seq<byte> {
    if folded == [] then name else Unfolded(name, folded[..|folded|-1]) + folded[|folded|-1]
  }

  /** "Name: " and the first piece; " " and each other piece; the others; "SHA1-Digest: ". */
  function NameLines(name: seq<byte>, folded: seq<seq<byte>>): seq<seq<byte>> {
    if folded == [] then [[78, 97, 109, 101, 58, 32] + name]
    else NameLines(name, folded[..|folded|-1]) + [[32] + folded[|folded|-1]]
  }

  function DigestLine(digest: seq<byte>): seq<byte> { [83, 72, 65, 49, 45, 68, 105, 103, 101, 115, 116, 58, 32] + digest }

  function SectionLines(s: Section): seq<seq<byte>> { NameLines(s.name, s.folded) + s.others + [DigestLine(s.digest)] }

  function ManifestLines(main: seq<seq<byte>>, sections: seq<Section>): seq<seq<byte>> {
    if sections == [] then main
    else ManifestLines(main, sections[..|sections|-1]) + SectionLines(sections[|sections|-1])
  }

  function StanzasOf(sections: seq<Section>): seq<Stanza> {
    if sections == [] then []
    else
      var s := sections[|sections|-1];
      StanzasOf(sections[..|sections|-1]) + [Stanza(Unfolded(s.name, s.folded), s.digest)]
  }

  lemma ScanMore(lines: seq<seq<byte>>, line: seq<byte>)
    ensures ScanLines(lines + [line]) == if ScanLines(lines).None? then None else ScanLine(ScanLines(lines).value, line)
  {
    assert (lines + [line])[..|lines|] == lines;
  }

  lemma {:induction false} NameIsRead(before: seq<seq<byte>>, stanzas: seq<Stanza>, name: seq<byte>, folded: seq<seq<byte>>)
    requires ScanLines(before) == Some(Scan(stanzas, None))
    ensures ScanLines(before + NameLines(name, folded)) == Some(Scan(stanzas, Some(Unfolded(name, folded))))
  {
    hide ScanLines, ScanLine;
    if folded == [] {
      var line := [78, 97, 109, 101, 58, 32] + name;
      ScanMore(before, line);
      LineMeans(Scan(stanzas, None), line);
      assert line[6..] == name;
    } else {
      var front, last := folded[..|folded|-1], folded[|folded|-1];
      var line := [32] + last;
      NameIsRead(before, stanzas, name, front);
      assert before + NameLines(name, folded) == before + NameLines(name, front) + [line];
      ScanMore(before + NameLines(name, front), line);
      LineMeans(Scan(stanzas, Some(Unfolded(name, front))), line);
      assert !StartsWith(line, "Name: ") by { assert !IsChar(line[0], "Name: "[0]); }
      assert StartsWith(line, " ") && line[1..] == last;
    }
  }

  lemma {:induction false} OthersAreSkipped(before: seq<seq<byte>>, scan: Scan, others: seq<seq<byte>>)
    requires ScanLines(before) == Some(scan) && forall i | 0 <= i < |others| :: IsOther(others[i])
    ensures ScanLines(before + others) == Some(scan)
  {
    if others == [] {
      assert before + others == before;
    } else {
      var front, last := others[..|others|-1], others[|others|-1];
      hide ScanLines, ScanLine, StartsWith;
      OthersAreSkipped(before, scan, front);
      assert before + others == before + front + [last];
      ScanMore(before + front, last);
      LineMeans(scan, last);
    }
  }

  lemma SectionIsRead(before: seq<seq<byte>>, stanzas: seq<Stanza>, s: Section)
    requires ScanLines(before) == Some(Scan(stanzas, None)) && Writable(s)
    ensures ScanLines(before + SectionLines(s)) == Some(Scan(stanzas + [Stanza(Unfolded(s.name, s.folded), s.digest)], None))
  {
    hide ScanLines, ScanLine, NameLines, Unfolded;
    var line, named := DigestLine(s.digest), before + NameLines(s.name, s.folded);
    NameIsRead(before, stanzas, s.name, s.folded);
    OthersAreSkipped(named, Scan(stanzas, Some(Unfolded(s.name, s.folded))), s.others);
    assert before + SectionLines(s) == named + s.others + [line];
    ScanMore(named + s.others, line);
    LineMeans(Scan(stanzas, Some(Unfolded(s.name, s.folded))), line);
    assert !StartsWith(line, "Name: ") by { assert !IsChar(line[0], "Name: "[0]); }
    assert !StartsWith(line, " ") by { assert !IsChar(line[0], " "[0]); }
    assert StartsWith(line, "SHA1-Digest: ") && line[13..] == s.digest;
  }

  /** A written manifest is read as its sections' names and digests, in order. */
  lemma {:induction false} ManifestIsRead(main: seq<seq<byte>>, sections: seq<Section>)
    requires forall i | 0 <= i < |main| :: IsOther(main[i])
    requires forall i | 0 <= i < |sections| :: Writable(sections[i])
    ensures ScanLines(ManifestLines(main, sections)) == Some(Scan(StanzasOf(sections), None))
  {
    if sections == [] {
      OthersAreSkipped([], Scan([], None), main);
      assert [] + main == main;
    } else {
      var front := sections[..|sections|-1];
      ManifestIsRead(main, front);
      hide ScanLines, Writable, IsOther;
      SectionIsRead(ManifestLines(main, front), StanzasOf(front), sections[|sections|-1]);
    }
  }

  // ---------------------------------------------------------------- as text

  function ManifestText(lines: seq<seq<byte>>): seq<byte> {
    if lines == [] then [] else lines[0] + [13, 10] + ManifestText(lines[1..])
  }

  ghost predicate AreLines(lines: seq<seq<byte>>) {
    forall i | 0 <= i < |lines| :: lines[i] != [] && 0 !in lines[i] && 10 !in lines[i] && 13 !in lines[i]
  }

  /** Lines written with carriage return and newline are found again, up to the NUL that ends
      the text. */
  lemma {:induction false} LinesAreFound(lines: seq<seq<byte>>, rest: seq<byte>)
    requires AreLines(lines) && (rest == [] || rest[0] == 0)
    ensures Split(Text(ManifestText(lines) + rest), IsEol) == lines
  {
    NoZeros(lines);
    TextEnds(ManifestText(lines), rest);
    TextSplits(lines);
  }

  lemma {:induction false} NoZeros(lines: seq<seq<byte>>)
    requires AreLines(lines)
    ensures 0 !in ManifestText(lines)
  {
    if lines != [] { NoZeros(lines[1..]); }
  }

  lemma {:induction false} TextEnds(s: seq<byte>, rest: seq<byte>)
    requires 0 !in s && (rest == [] || rest[0] == 0)
    ensures Text(s + rest) == s
  {
    if s == [] {
      assert s + rest == rest;
    } else {
      assert (s + rest)[0] == s[0] && (s + rest)[1..] == s[1..] + rest;
      TextEnds(s[1..], rest);
    }
  }

  lemma {:induction false} TextSplits(lines: seq<seq<byte>>)
    requires AreLines(lines)
    ensures Split(ManifestText(lines), IsEol) == lines
  {
    if lines == [] {
      NothingLeft<byte>([], IsEol);
    } else {
      var line, rest := lines[0], ManifestText(lines[1..]);
      TextSplits(lines[1..]);
      assert ManifestText(lines) == line + ([13, 10] + rest);
      FirstPiece(line, [13, 10] + rest, IsEol);
      SkipSeparator([13, 10] + rest, 0, IsEol);
      SkipSeparator([13, 10] + rest, 1, IsEol);
      assert ([13, 10] + rest)[0..] == [13, 10] + rest && ([13, 10] + rest)[2..] == rest;
      assert [line] + lines[1..] == lines;
    }
  }
}
