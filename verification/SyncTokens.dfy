/** Sync tokens: urn:contactd:sync:<addressbook id>:<revision> (internal/carddavx/sync.go).
    A string is a sequence of Unicode characters. */
module SyncTokens {
  import opened Basics

  const PREFIX := "urn:contactd:sync:"

  datatype SyncToken = SyncToken(book: nat, revision: nat)

  datatype TokenError = EmptyToken | BadPrefix | BadParts | BadBook | BadRevision

  // ---- Decimal numbers ----

  function Digit(d: nat): char
    requires d < 10
  {
    '0' + d as char
  }

  predicate IsDigit(c: char) { '0' <= c <= '9' }

  function FormatInt(n: nat): string {
    if n < 10 then [Digit(n)] else FormatInt(n / 10) + [Digit(n % 10)]
  }

  predicate AllDigits(s: string) { forall c :: c in s ==> IsDigit(c) }

  function DigitsValue(s: string): nat
    requires AllDigits(s)
  {
    if s == [] then 0
    else
      assert IsDigit(s[|s| - 1]);
      10 * DigitsValue(s[..|s| - 1]) + (s[|s| - 1] as int - '0' as int)
  }

  /** strconv.ParseInt(s, 10, 64): an optional sign, then digits, in the range of int64. */
  function ParseInt(s: string): Option<int> {
    var signed := s != [] && (s[0] == '+' || s[0] == '-');
    var digits := if signed then s[1..] else s;
    if digits == [] || !AllDigits(digits) then None
    else
      var n: int := DigitsValue(digits);
      var v := if signed && s[0] == '-' then -n else n;
      if -MAX_INT64 - 1 <= v <= MAX_INT64 then Some(v) else None
  }

  // ---- Tokens ----

  function FormatSyncToken(book: nat, revision: nat): string {
    PREFIX + FormatInt(book) + ":" + FormatInt(revision)
  }

  // unicode.IsSpace
  predicate IsSpace(c: char) {
    var n := c as int;
    9 <= n <= 13 || n == 32 || n == 0x85 || n == 0xA0 || n == 0x1680 || 0x2000 <= n <= 0x200a
    || n == 0x2028 || n == 0x2029 || n == 0x202f || n == 0x205f || n == 0x3000
  }

  /** strings.TrimSpace */
  function TrimSpace(s: string): string {
    if s == [] then []
    else if IsSpace(s[0]) then TrimSpace(s[1..])
    else if IsSpace(s[|s| - 1]) then TrimSpace(s[..|s| - 1])
    else s
  }

  function ParseSyncToken(raw: string): Result<SyncToken, TokenError> {
    if TrimSpace(raw) == [] then Err(EmptyToken)
    else if !(PREFIX <= raw) then Err(BadPrefix)
    else
      var parts := SplitOn(raw[|PREFIX|..], ':');
      if |parts| != 2 then Err(BadParts)
      else
        var book, revision := ParseInt(parts[0]), ParseInt(parts[1]);
        if book.None? || book.value <= 0 then Err(BadBook)
        else if revision.None? || revision.value < 0 then Err(BadRevision)
        else Ok(SyncToken(book.value, revision.value))
  }

  lemma {:induction false} FormatIntRoundTrip(n: nat)
    ensures FormatInt(n) != [] && AllDigits(FormatInt(n)) && DigitsValue(FormatInt(n)) == n
  {
    if n >= 10 {
      FormatIntRoundTrip(n / 10);
      assert FormatInt(n)[..|FormatInt(n)| - 1] == FormatInt(n / 10);
    }
  }

  lemma ParseFormattedInt(n: nat)
    ensures ParseInt(FormatInt(n)) == if n <= MAX_INT64 then Some(n) else None
    ensures ':' !in FormatInt(n)
  {
    FormatIntRoundTrip(n);
    assert FormatInt(n)[0] in FormatInt(n);
  }

  lemma FormatParts(book: nat, revision: nat)
    ensures PREFIX <= FormatSyncToken(book, revision)
    ensures SplitOn(FormatSyncToken(book, revision)[|PREFIX|..], ':') == [FormatInt(book), FormatInt(revision)]
  {
    ParseFormattedInt(book);
    ParseFormattedInt(revision);
    assert FormatSyncToken(book, revision)[|PREFIX|..] == FormatInt(book) + [':'] + FormatInt(revision);
    SplitAtSeparator(FormatInt(book), FormatInt(revision), ':');
    SplitWithoutSeparator(FormatInt(revision), ':');
  }

  lemma FormatHasNoSpaces(book: nat, revision: nat)
    ensures TrimSpace(FormatSyncToken(book, revision)) == FormatSyncToken(book, revision) != []
  {
    FormatIntRoundTrip(revision);
    var s, r := FormatSyncToken(book, revision), FormatInt(revision);
    assert s[0] == PREFIX[0] == 'u';
    assert s[|s| - 1] == r[|r| - 1] && r[|r| - 1] in r;
  }

  /** Parsing a formatted token gives the same book and revision back, for every int64 pair; a
      number past int64 is refused, never misread. */
  lemma ParseOfFormat(book: nat, revision: nat)
    requires 0 < book
    ensures book <= MAX_INT64 && revision <= MAX_INT64 ==>
      ParseSyncToken(FormatSyncToken(book, revision)) == Ok(SyncToken(book, revision))
    ensures book > MAX_INT64 || revision > MAX_INT64 ==>
      ParseSyncToken(FormatSyncToken(book, revision)).Err?
  {
    FormatParts(book, revision);
    FormatHasNoSpaces(book, revision);
    ParseFormattedInt(book);
    ParseFormattedInt(revision);
  }

  /** Cursor keys never collide across books or revisions. */
  lemma FormatIsInjective(b1: nat, r1: nat, b2: nat, r2: nat)
    requires FormatSyncToken(b1, r1) == FormatSyncToken(b2, r2)
    ensures b1 == b2 && r1 == r2
  {
    FormatParts(b1, r1);
    FormatParts(b2, r2);
    var parts := [FormatInt(b1), FormatInt(r1)];
    assert parts == [FormatInt(b2), FormatInt(r2)];
    assert parts[0] == FormatInt(b2) && parts[1] == FormatInt(r2);
    FormatIntRoundTrip(b1);
    FormatIntRoundTrip(b2);
    FormatIntRoundTrip(r1);
    FormatIntRoundTrip(r2);
  }

  /** One token, letter by letter. */
  lemma TokenText()
    ensures FormatSyncToken(7, 42) == "urn:contactd:sync:7:42"
  {
    assert FormatInt(42) == FormatInt(4) + [Digit(2)];
  }

  predicate AllSpace(s: string) { forall c :: c in s ==> IsSpace(c) }

  /** Trimming takes the blanks off both ends and nothing else. */
  lemma {:induction false} TrimSpaceStrips(before: string, s: string, after: string)
    requires AllSpace(before) && AllSpace(after)
    requires s != [] ==> !IsSpace(s[0]) && !IsSpace(s[|s| - 1])
    ensures TrimSpace(before + s + after) == s
    decreases |before| + |after|
  {
    var all := before + s + after;
    if before != [] {
      assert all[1..] == before[1..] + s + after && all[0] == before[0];
      TrimSpaceStrips(before[1..], s, after);
    } else if after != [] {
      var n := |after| - 1;
      assert all[..|all| - 1] == before + s + after[..n] && all[|all| - 1] == after[n];
      if s == [] {
        assert all[1..] == [] + s + after[1..] && all[0] == after[0];
        TrimSpaceStrips([], s, after[1..]);
      } else {
        TrimSpaceStrips(before, s, after[..n]);
        assert all[0] == s[0];
      }
    } else {
      assert all == s;
    }
  }

  ghost predicate Spells(raw: string, b: string, r: string, t: SyncToken) {
    && raw == PREFIX + b + ":" + r
    && t.book > 0 && ParseInt(b) == Some(t.book) && ParseInt(r) == Some(t.revision)
  }

  lemma SpellingAccepted(raw: string, b: string, r: string, t: SyncToken)
    requires Spells(raw, b, r, t)
    ensures ParseSyncToken(raw) == Ok(t)
  {
    ParsedHasNoColon(b);
    ParsedHasNoColon(r);
    assert raw[|PREFIX|..] == b + [':'] + r;
    SplitAtSeparator(b, r, ':');
    SplitWithoutSeparator(r, ':');
    assert raw[0] == PREFIX[0];
    NotAllSpace(raw);
    assert PREFIX <= raw;
    assert SplitOn(raw[|PREFIX|..], ':') == [b, r];
  }

  lemma AcceptedSpelling(raw: string, t: SyncToken) returns (b: string, r: string)
    requires ParseSyncToken(raw) == Ok(t)
    ensures Spells(raw, b, r, t)
  {
    var rest := raw[|PREFIX|..];
    SplitInTwo(rest, ':');
    b, r := SplitOn(rest, ':')[0], SplitOn(rest, ':')[1];
    assert raw == PREFIX + rest;
    assert PREFIX + (b + [':'] + r) == PREFIX + b + ":" + r;
  }

  /** The accepted spellings, exactly: the prefix, a positive int64, a colon, a non-negative
      int64; signs and leading zeros included. */
  lemma AcceptedSpellings(raw: string, t: SyncToken)
    ensures ParseSyncToken(raw) == Ok(t) <==> exists b, r :: Spells(raw, b, r, t)
  {
    if ParseSyncToken(raw) == Ok(t) {
      var b, r := AcceptedSpelling(raw, t);
    }
    if b, r :| Spells(raw, b, r, t) {
      SpellingAccepted(raw, b, r, t);
    }
  }

  lemma ParsedHasNoColon(s: string)
    requires ParseInt(s).Some?
    ensures ':' !in s
  {
    if s[0] == '+' || s[0] == '-' { assert s == [s[0]] + s[1..]; }
  }

  lemma {:induction false} NotAllSpace(s: string)
    requires s != [] && !IsSpace(s[0])
    ensures TrimSpace(s) != []
  {
    if IsSpace(s[|s| - 1]) { NotAllSpace(s[..|s| - 1]); }
  }
}
