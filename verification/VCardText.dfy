/** vCard text as bytes: canonical line endings (internal/db/store.go) and the two single-card
    envelope checks (internal/server/handler.go, internal/ctl/ctl.go). A string is a sequence of
    bytes. */
module VCardText {
  import opened Basics

  const CR := "\r"
  const LF := "\n"
  const CRLF := "\r\n"

  /** bytes.ReplaceAll / strings.ReplaceAll for a non-empty pattern: left to right, no overlap. */
  function ReplaceAll(s: string, pattern: string, replacement: string): string
    requires pattern != []
  {
    if |s| < |pattern| then s
    else if s[..|pattern|] == pattern then replacement + ReplaceAll(s[|pattern|..], pattern, replacement)
    else [s[0]] + ReplaceAll(s[1..], pattern, replacement)
  }

  function NormalizeNewlines(s: string): string {
    ReplaceAll(ReplaceAll(s, CRLF, LF), CR, LF)
  }

  function Canonicalize(s: string): string {
    if s == [] then [] else ReplaceAll(NormalizeNewlines(s), LF, CRLF)
  }

  function SplitLF(s: string): seq<string> { SplitOn(s, '\n') }

  /** The lines of a text whose lines end in CR, LF or CRLF, in any mixture. */
  function Lines(s: string): (lines: seq<string>)
    ensures lines != []
  {
    if s == [] then [[]]
    else if CRLF <= s then [[]] + Lines(s[2..])
    else if s[0] == '\r' || s[0] == '\n' then [[]] + Lines(s[1..])
    else var rest := Lines(s[1..]); [[s[0]] + rest[0]] + rest[1..]
  }

  function JoinCRLF(lines: seq<string>): string
    requires lines != []
  {
    if |lines| == 1 then lines[0] else lines[0] + CRLF + JoinCRLF(lines[1..])
  }

  ghost predicate NoBreaks(line: string) { '\r' !in line && '\n' !in line }

  lemma NormalizeStep(s: string)
    requires s != []
    ensures NormalizeNewlines(s) ==
      if CRLF <= s then LF + NormalizeNewlines(s[2..])
      else if s[0] == '\r' || s[0] == '\n' then LF + NormalizeNewlines(s[1..])
      else [s[0]] + NormalizeNewlines(s[1..])
  {
    if CRLF <= s {
      var t := ReplaceAll(s[2..], CRLF, LF);
      assert (LF + t)[1..] == t;
    } else {
      var t := ReplaceAll(s[1..], CRLF, LF);
      assert ReplaceAll(s, CRLF, LF) == [s[0]] + t by { if |s| == 1 { assert t == []; } }
      assert ([s[0]] + t)[1..] == t;
    }
  }

  lemma {:induction false} SplitOfNormalized(s: string)
    ensures SplitLF(NormalizeNewlines(s)) == Lines(s)
    ensures forall i :: 0 <= i < |Lines(s)| ==> NoBreaks(Lines(s)[i])
    decreases |s|
  {
    if s != [] {
      NormalizeStep(s);
      var k := if CRLF <= s then 2 else 1;
      SplitOfNormalized(s[k..]);
      var rest := NormalizeNewlines(s[k..]);
      assert (LF + rest)[1..] == rest && ([s[0]] + rest)[1..] == rest;
    }
  }

  lemma {:induction false} ExpandIsJoin(s: string)
    ensures ReplaceAll(s, LF, CRLF) == JoinCRLF(SplitLF(s))
  {
    if s != [] {
      ExpandIsJoin(s[1..]);
      var rest := SplitLF(s[1..]);
      if s[0] == '\n' {
        assert ([[]] + rest)[1..] == rest;
        assert s[..1] == LF;
      } else {
        assert ([[s[0]] + rest[0]] + rest[1..])[1..] == rest[1..];
        assert s[..1] != LF by { assert s[..1][0] != '\n'; }
      }
    }
  }

  lemma CanonicalIsJoin(s: string)
    ensures Canonicalize(s) == JoinCRLF(Lines(s))
  {
    SplitOfNormalized(s);
    ExpandIsJoin(NormalizeNewlines(s));
  }

  lemma {:induction false} LinesOfPrefixed(line: string, rest: string)
    requires NoBreaks(line)
    ensures Lines(line + rest) == [line + Lines(rest)[0]] + Lines(rest)[1..]
  {
    if line == [] {
      assert line + rest == rest && line + Lines(rest)[0] == Lines(rest)[0];
    } else {
      assert (line + rest)[1..] == line[1..] + rest;
      assert line == [line[0]] + line[1..];
      assert (line + rest)[0] == line[0] && line[0] in line && CRLF[0] == '\r';
      LinesOfPrefixed(line[1..], rest);
      assert line + Lines(rest)[0] == [line[0]] + (line[1..] + Lines(rest)[0]);
    }
  }

  lemma LinesOfCRLF(rest: string)
    ensures Lines(CRLF + rest) == [[]] + Lines(rest)
  {
    assert (CRLF + rest)[2..] == rest;
  }

  lemma {:induction false} LinesOfJoin(lines: seq<string>)
    requires lines != [] && forall i :: 0 <= i < |lines| ==> NoBreaks(lines[i])
    ensures Lines(JoinCRLF(lines)) == lines
  {
    assert lines[0] + [] == lines[0];
    if |lines| == 1 {
      LinesOfPrefixed(lines[0], []);
    } else {
      var rest := JoinCRLF(lines[1..]);
      LinesOfJoin(lines[1..]);
      LinesOfCRLF(rest);
      assert lines[0] + CRLF + rest == lines[0] + (CRLF + rest);
      LinesOfPrefixed(lines[0], CRLF + rest);
    }
  }

  /** In canonical text every line ends in CR LF: no CR stands alone and no LF does. */
  ghost predicate OnlyCRLF(s: string) {
    && (forall i :: 0 <= i < |s| && s[i] == '\r' ==> i + 1 < |s| && s[i + 1] == '\n')
    && (forall i :: 0 <= i < |s| && s[i] == '\n' ==> i > 0 && s[i - 1] == '\r')
  }

  lemma {:induction false} JoinedHasOnlyCRLF(lines: seq<string>)
    requires lines != [] && forall i :: 0 <= i < |lines| ==> NoBreaks(lines[i])
    ensures OnlyCRLF(JoinCRLF(lines))
  {
    var s, n := JoinCRLF(lines), |lines[0]|;
    assert NoBreaks(lines[0]);
    if |lines| > 1 {
      var rest := JoinCRLF(lines[1..]);
      JoinedHasOnlyCRLF(lines[1..]);
      assert s == lines[0] + CRLF + rest && s[n] == '\r' && s[n + 1] == '\n';
      forall i | 0 <= i < |s|
        ensures s[i] == '\r' ==> i + 1 < |s| && s[i + 1] == '\n'
        ensures s[i] == '\n' ==> i > 0 && s[i - 1] == '\r'
      {
        if i < n {
          assert s[i] == lines[0][i] && lines[0][i] in lines[0];
        } else if i >= n + 2 {
          assert s[i] == rest[i - n - 2];
        }
      }
    } else {
      forall i | 0 <= i < |s| ensures s[i] != '\r' && s[i] != '\n' { assert s[i] in lines[0]; }
    }
  }

  lemma CanonicalHasOnlyCRLF(s: string)
    ensures OnlyCRLF(Canonicalize(s))
  {
    CanonicalIsJoin(s);
    SplitOfNormalized(s);
    JoinedHasOnlyCRLF(Lines(s));
  }

  /** Canonicalizing keeps the lines. */
  lemma CanonicalKeepsLines(s: string)
    ensures Lines(Canonicalize(s)) == Lines(s)
  {
    CanonicalIsJoin(s);
    SplitOfNormalized(s);
    LinesOfJoin(Lines(s));
  }

  lemma CanonicalIsIdempotent(s: string)
    ensures Canonicalize(Canonicalize(s)) == Canonicalize(s)
  {
    CanonicalKeepsLines(s);
    CanonicalIsJoin(s);
    CanonicalIsJoin(Canonicalize(s));
  }

  /** Two texts are stored as the same bytes exactly when they have the same lines. */
  lemma SameCanonicalIffSameLines(a: string, b: string)
    ensures Canonicalize(a) == Canonicalize(b) <==> Lines(a) == Lines(b)
  {
    CanonicalKeepsLines(a);
    CanonicalKeepsLines(b);
    CanonicalIsJoin(a);
    CanonicalIsJoin(b);
  }

  // ---- Envelope checks ----

  /** strings.TrimSpace and strings.EqualFold, given: nothing here depends on what they do. */
  datatype TextRules = TextRules(trim: string -> string, equalFold: (string, string) -> bool)

  predicate Folded(line: string) { line != [] && (line[0] == ' ' || line[0] == '\t') }

  /** Whether a line reads as `mark`; the server does not let a folded line count. */
  predicate Reads(t: TextRules, strict: bool, line: string, mark: string) {
    !(strict && Folded(line)) && t.equalFold(t.trim(line), mark)
  }

  ghost predicate BlankLines(t: TextRules, lines: seq<string>, from: nat, to: nat) {
    to <= |lines| && forall i :: from <= i < to ==> t.trim(lines[i]) == []
  }

  /** Line b is the first that is not blank, and it opens an envelope. */
  ghost predicate OpensAt(t: TextRules, strict: bool, lines: seq<string>, b: nat) {
    && b < |lines| && BlankLines(t, lines, 0, b)
    && t.trim(lines[b]) != [] && Reads(t, strict, lines[b], "BEGIN:VCARD")
  }

  ghost predicate NotClosed(t: TextRules, strict: bool, lines: seq<string>, b: nat, to: nat) {
    to <= |lines| && forall i :: b < i < to ==> !Reads(t, strict, lines[i], "END:VCARD")
  }

  /** Line e is the first after b that closes the envelope. */
  ghost predicate ClosesAt(t: TextRules, strict: bool, lines: seq<string>, b: nat, e: nat) {
    b < e < |lines| && NotClosed(t, strict, lines, b, e) && Reads(t, strict, lines[e], "END:VCARD")
  }

  /** Exactly one envelope, and nothing but blank lines outside it. */
  ghost predicate EnvelopeAt(t: TextRules, strict: bool, lines: seq<string>, b: nat, e: nat) {
    OpensAt(t, strict, lines, b) && ClosesAt(t, strict, lines, b, e) && BlankLines(t, lines, e + 1, |lines|)
  }

  ghost predicate HasEnvelope(t: TextRules, strict: bool, lines: seq<string>) {
    exists b, e :: EnvelopeAt(t, strict, lines, b, e)
  }

  ghost predicate SingleEnvelope(t: TextRules, strict: bool, raw: string) { HasEnvelope(t, strict, Lines(raw)) }

  /** What the scan has seen of the first n lines. */
  ghost predicate Scanned(t: TextRules, strict: bool, lines: seq<string>, seenBegin: bool, seenEnd: bool, b: nat, e: nat, n: nat) {
    if !seenBegin then !seenEnd && BlankLines(t, lines, 0, n)
    else
      && b < n && OpensAt(t, strict, lines, b)
      && if !seenEnd then NotClosed(t, strict, lines, b, n)
         else e < n && ClosesAt(t, strict, lines, b, e) && BlankLines(t, lines, e + 1, n)
  }

  lemma ScanGoesOn(t: TextRules, strict: bool, lines: seq<string>, seenBegin: bool, seenEnd: bool, b: nat, e: nat, i: nat)
    requires i < |lines| && Scanned(t, strict, lines, seenBegin, seenEnd, b, e, i)
    ensures seenBegin == seenEnd && t.trim(lines[i]) == [] ==> Scanned(t, strict, lines, seenBegin, seenEnd, b, e, i + 1)
    ensures !seenBegin && t.trim(lines[i]) != [] && Reads(t, strict, lines[i], "BEGIN:VCARD") ==> Scanned(t, strict, lines, true, false, i, e, i + 1)
    ensures seenBegin && !seenEnd && Reads(t, strict, lines[i], "END:VCARD") ==> Scanned(t, strict, lines, true, true, b, i, i + 1)
    ensures seenBegin && !seenEnd && !Reads(t, strict, lines[i], "END:VCARD") ==> Scanned(t, strict, lines, true, false, b, e, i + 1)
  {}

  lemma FirstLineDecides(t: TextRules, strict: bool, lines: seq<string>, i: nat)
    requires i < |lines| && BlankLines(t, lines, 0, i) && t.trim(lines[i]) != []
    ensures !Reads(t, strict, lines[i], "BEGIN:VCARD") ==> !HasEnvelope(t, strict, lines)
  {}

  lemma NothingMayFollow(t: TextRules, strict: bool, lines: seq<string>, b: nat, e: nat, i: nat)
    requires OpensAt(t, strict, lines, b) && ClosesAt(t, strict, lines, b, e) && e < i < |lines| && t.trim(lines[i]) != []
    ensures !HasEnvelope(t, strict, lines)
  {}

  lemma EndDecides(t: TextRules, strict: bool, lines: seq<string>, seenBegin: bool, seenEnd: bool, b: nat, e: nat)
    requires Scanned(t, strict, lines, seenBegin, seenEnd, b, e, |lines|)
    ensures seenBegin && seenEnd <==> HasEnvelope(t, strict, lines)
  {
    if seenBegin && seenEnd { assert EnvelopeAt(t, strict, lines, b, e); }
  }

  /** validateSingleVCardEnvelope of the server: folded lines never open or close the envelope. */
  method ValidateEnvelopeOnServer(t: TextRules, raw: string) returns (ok: bool)
    ensures ok <==> SingleEnvelope(t, true, raw)
  {
    var lines := SplitLF(NormalizeNewlines(raw));
    SplitOfNormalized(raw);
    var seenBegin, seenEnd := false, false;
    ghost var b, e := 0, 0;
    for i := 0 to |lines|
      invariant Scanned(t, true, lines, seenBegin, seenEnd, b, e, i)
    {
      var trimmed := t.trim(lines[i]);
      ScanGoesOn(t, true, lines, seenBegin, seenEnd, b, e, i);
      var folded := Folded(lines[i]);
      if !seenBegin {
        if trimmed == "" { continue; }
        FirstLineDecides(t, true, lines, i);
        if folded { return false; }
        if t.equalFold(trimmed, "BEGIN:VCARD") {
          seenBegin, b := true, i;
          continue;
        }
        return false;
      }
      if !seenEnd {
        if !folded && t.equalFold(trimmed, "END:VCARD") { seenEnd, e := true, i; }
        continue;
      }
      if trimmed == "" { continue; }
      NothingMayFollow(t, true, lines, b, e, i);
      return false;
    }
    EndDecides(t, true, lines, seenBegin, seenEnd, b, e);
    ok := seenBegin && seenEnd;
  }

  /** validateSingleVCardEnvelope of contactctl: leading blanks are not looked at. */
  method ValidateEnvelopeOnImport(t: TextRules, raw: string) returns (ok: bool)
    ensures ok <==> SingleEnvelope(t, false, raw)
  {
    var lines := SplitLF(NormalizeNewlines(raw));
    SplitOfNormalized(raw);
    var seenBegin, seenEnd := false, false;
    ghost var b, e := 0, 0;
    for i := 0 to |lines|
      invariant Scanned(t, false, lines, seenBegin, seenEnd, b, e, i)
    {
      var trimmed := t.trim(lines[i]);
      ScanGoesOn(t, false, lines, seenBegin, seenEnd, b, e, i);
      if !seenBegin {
        if trimmed == "" { continue; }
        FirstLineDecides(t, false, lines, i);
        if t.equalFold(trimmed, "BEGIN:VCARD") {
          seenBegin, b := true, i;
          continue;
        }
        return false;
      }
      if !seenEnd {
        if t.equalFold(trimmed, "END:VCARD") { seenEnd, e := true, i; }
        continue;
      }
      if trimmed == "" { continue; }
      NothingMayFollow(t, false, lines, b, e, i);
      return false;
    }
    EndDecides(t, false, lines, seenBegin, seenEnd, b, e);
    ok := seenBegin && seenEnd;
  }

  /** On the server a line that begins with a blank or a tab neither opens nor closes an envelope. */
  lemma FoldedLinesAreInert(t: TextRules, lines: seq<string>, b: nat, e: nat)
    requires EnvelopeAt(t, true, lines, b, e)
    ensures forall line :: line == lines[b] || line == lines[e] ==> line == [] || (line[0] != ' ' && line[0] != '\t')
    ensures t.equalFold(t.trim(lines[b]), "BEGIN:VCARD") && t.equalFold(t.trim(lines[e]), "END:VCARD")
  {}

  /** Both checks give the stored bytes the verdict they gave the received ones. */
  lemma SameVerdictOnCanonical(t: TextRules, raw: string)
    ensures SingleEnvelope(t, true, Canonicalize(raw)) <==> SingleEnvelope(t, true, raw)
    ensures SingleEnvelope(t, false, Canonicalize(raw)) <==> SingleEnvelope(t, false, raw)
  {
    CanonicalKeepsLines(raw);
  }
}
