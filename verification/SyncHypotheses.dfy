/** What each hypothesis of the convergence theorem is for: where it fails the guarantee fails, and
    exactly when. */
module SyncHypotheses {
  import opened Basics
  import opened History
  import opened SyncItems
  import opened PageSafety
  import opened CardStore
  import opened StoreInvariant
  import opened StoreReads

  // ---- No prune between the two reads of a request at the head ----

  /** An accepted change read is complete unless its token equals the head it read and a prune has
      passed over it since: the one case in which the gap check is skipped. */
  lemma ChangeReadCompleteIff(hash: Hash, b: Book, k: nat, head: nat)
    requires BookOk(hash, b) && TimeOrdered(b.hist) && k <= head <= |b.hist|
    requires !IsStale(k, head, ChangesSince(b.journal, k))
    ensures ChangesSince(b.journal, k) == Log(b)[k..] <==> !(k == head && Floor(b) > k)
  {
    StaleIffBehindFloor(hash, b, k, head);
  }

  // ---- First-listing cursors served to their own client ----

  lemma MaxRevisionOfUntouched(b: Book, k: nat, href: Href)
    requires Suffix(b.journal, b.hist) && Numbered(Log(b)) && Floor(b) <= k <= |b.hist| && MaxRevision(b.journal, href) <= k
    ensures !ChangedIn(Log(b), k, |b.hist|, href)
  {
    JournalNumbered(b);
    forall j | k <= j < |b.hist| ensures Log(b)[j].href != href {
      var i := j - Floor(b);
      assert b.journal[i] == b.hist[j];
      if b.journal[i].change.href == href { MaxRevisionBounds(b.journal, href, i); }
    }
  }

  lemma ListedRevisionIsRetained(hash: Hash, b: Book, c: Change)
    requires BookOk(hash, b) && Suffix(b.journal, b.hist) && c in StatesOf(b) && c.revision > 0
    ensures Floor(b) < c.revision <= |b.hist|
  {
    JournalNumbered(b);
    MaxRevisionIsSomeRow(b.journal, c.href);
    var r :| r in b.journal && r.change.revision == c.revision;
    var i :| 0 <= i < |b.journal| && b.journal[i] == r;
  }

  /** A card that a first listing served up to its cut at k > 0 has not changed since k. */
  lemma ServedUnchangedSinceCut(hash: Hash, b: Book, n: nat, x: Href)
    requires BookOk(hash, b) && TimeOrdered(b.hist) && 0 < n <= |StateListing(b)| && StateListing(b)[n - 1].revision > 0
    requires x in b.cards && x !in Hrefs(StateListing(b)[n..])
    ensures StateListing(b)[n - 1].revision <= |b.hist|
    ensures !ChangedIn(Log(b), StateListing(b)[n - 1].revision, |b.hist|, x)
  {
    var listing := StateListing(b);
    var k := listing[n - 1].revision;
    forall j | n <= j < |listing| ensures listing[j].href != x { assert listing[n..][j - n] in listing[n..]; }
    assert CardState(b, x) in listing;
    var i :| 0 <= i < |listing| && listing[i] == CardState(b, x);
    assert i == n - 1 || StateBefore(listing[i], listing[n - 1]);
    ListedRevisionIsRetained(hash, b, listing[n - 1]);
    MaxRevisionOfUntouched(b, k, x);
  }

  lemma ForeignLookup(hash: Hash, b: Book, n: nat, head: nat, limit: int, x: Href)
    requires BookOk(hash, b) && TimeOrdered(b.hist) && 0 < n < |StateListing(b)| && limit >= |StateListing(b)| - n
    requires StateListing(b)[n - 1].revision <= |b.hist|
    ensures var rest, k := StateListing(b)[n..], StateListing(b)[n - 1].revision;
      var out := ApplyPage(StateAt(Log(b), k), CutPage(head, rest, limit));
      && Get(out, x) == (if x in Hrefs(rest) then Get(StateAt(Log(b), |b.hist|), x) else Get(StateAt(Log(b), k), x))
      && (x in Hrefs(rest) ==> x in StateAt(Log(b), |b.hist|))
  {
    var listing, log := StateListing(b), Log(b);
    var rest, k := listing[n..], listing[n - 1].revision;
    ListingStartsFirstSync(hash, b);
    assert listing == listing[..n] + rest;
    PartsListed(listing[..n], rest, log, |log|, 0);
    ListedReplay(StateAt(log, k), rest, log, |log|, k, x);
    ApplyPageIsReplay(StateAt(log, k), CutPage(head, rest, limit));
  }

  /** The rest of another client's first listing, cut at k, served to a client that holds exactly
      the state at k: it ends up exact if and only if the cut lies past the pruned cards and no
      card it holds has been deleted since. */
  lemma ForeignContinuationExactIff(hash: Hash, b: Book, n: nat, head: nat, limit: int)
    requires BookOk(hash, b) && TimeOrdered(b.hist) && 0 < n < |StateListing(b)| && limit >= |StateListing(b)| - n
    ensures var rest, k := StateListing(b)[n..], StateListing(b)[n - 1].revision;
      && k <= |b.hist|
      && (ApplyPage(StateAt(Log(b), k), CutPage(head, rest, limit)) == Etags(b.cards) <==>
            k > 0 && forall x :: x in StateAt(Log(b), k) ==> x in b.cards)
  {
    var listing, log := StateListing(b), Log(b);
    var rest, k := listing[n..], listing[n - 1].revision;
    assert listing[n - 1] in listing;
    ListedState(hash, b, listing[n - 1]);
    var held, out, now := StateAt(log, k), ApplyPage(StateAt(log, k), CutPage(head, rest, limit)), Etags(b.cards);
    forall x { ForeignLookup(hash, b, n, head, limit, x); }
    if k > 0 && forall x :: x in held ==> x in b.cards {
      forall x ensures Get(out, x) == Get(now, x) {
        ForeignLookup(hash, b, n, head, limit, x);
        if x in b.cards && x !in Hrefs(rest) {
          ServedUnchangedSinceCut(hash, b, n, x);
          StateUnchanged(log, k, |log|, x);
        }
      }
      SameLookupsSameMap(out, now);
    }
    if out == now {
      CutAtZeroLosesFirst(hash, b, n, head, limit);
      forall x | x in held ensures x in b.cards {
        ForeignLookup(hash, b, n, head, limit, x);
        assert Get(now, x) == Get(out, x);
      }
    }
  }

  lemma CutAtZeroLosesFirst(hash: Hash, b: Book, n: nat, head: nat, limit: int)
    requires BookOk(hash, b) && TimeOrdered(b.hist) && 0 < n < |StateListing(b)| && limit >= |StateListing(b)| - n
    ensures StateListing(b)[n - 1].revision == 0 ==>
      ApplyPage(StateAt(Log(b), 0), CutPage(head, StateListing(b)[n..], limit)) != Etags(b.cards)
  {
    var listing := StateListing(b);
    if listing[n - 1].revision == 0 {
      var x := listing[0].href;
      assert listing[0] in listing;
      ForeignLookup(hash, b, n, head, limit, x);
      SortedIsDistinct(listing);
      assert x !in Hrefs(listing[n..]) by {
        forall c | c in listing[n..] ensures c.href != x {}
      }
      assert Log(b)[..0] == [];
      assert Get(Etags(b.cards), x).Some?;
    }
  }

  // ---- The same for any page, and with writes after the listing ----

  lemma RestIsListed(hash: Hash, b: Book, n: nat)
    requires BookOk(hash, b) && 0 < n < |StateListing(b)|
    ensures StateListing(b)[n - 1].revision <= |b.hist|
    ensures ListedFrom(StateListing(b)[n..], Log(b), |b.hist|, StateListing(b)[n - 1].revision)
  {
    var listing := StateListing(b);
    ListingStartsFirstSync(hash, b);
    assert listing == listing[..n] + listing[n..];
    PartsListed(listing[..n], listing[n..], Log(b), |b.hist|, 0);
  }

  /** What a page of listed items leaves of the server's state at the cut. */
  lemma ListedPageLookup(items: seq<Change>, log: seq<Change>, k: nat, head: nat, limit: int, x: Href)
    requires k <= |log| && ListedFrom(items, log, |log|, k) && items != [] && head <= |log|
    ensures var p := CutPage(head, items, limit);
      && k <= p.tokenRevision <= |log|
      && Get(ApplyPage(StateAt(log, k), p), x) ==
           (if x in Hrefs(p.items) then Get(StateAt(log, |log|), x) else Get(StateAt(log, k), x))
      && (x in Hrefs(p.items) ==> x in StateAt(log, |log|))
  {
    var p := CutPage(head, items, limit);
    InitialToken(items, log, |log|, k, head, limit);
    CutSplits(head, items, limit);
    PartsListed(p.items, p.remaining, log, |log|, k);
    ListedReplay(StateAt(log, k), p.items, log, |log|, k, x);
    ApplyPageIsReplay(StateAt(log, k), p);
  }

  lemma ForeignPageLookup(hash: Hash, b: Book, n: nat, head: nat, limit: int, x: Href)
    requires BookOk(hash, b) && 0 < n < |StateListing(b)| && head <= |b.hist|
    ensures var rest, k := StateListing(b)[n..], StateListing(b)[n - 1].revision;
      var p := CutPage(head, rest, limit);
      && k <= p.tokenRevision <= |b.hist|
      && Get(ApplyPage(StateAt(Log(b), k), p), x) ==
           (if x in Hrefs(p.items) then Get(StateAt(Log(b), |b.hist|), x) else Get(StateAt(Log(b), k), x))
      && (x in Hrefs(p.items) ==> x in StateAt(Log(b), |b.hist|))
  {
    RestIsListed(hash, b, n);
    ListedPageLookup(StateListing(b)[n..], Log(b), StateListing(b)[n - 1].revision, head, limit, x);
  }

  /** A card that has not changed since the page's token is served by the page or before the cut. */
  lemma UnchangedIsServedBefore(hash: Hash, b: Book, n: nat, head: nat, limit: int, x: Href)
    requires BookOk(hash, b) && 0 < n < |StateListing(b)| && head <= |b.hist|
    requires var p := CutPage(head, StateListing(b)[n..], limit);
      p.tokenRevision <= |b.hist| && !ChangedIn(Log(b), p.tokenRevision, |b.hist|, x) && x !in Hrefs(p.items)
    ensures x !in Hrefs(StateListing(b)[n..])
  {
    var rest := StateListing(b)[n..];
    RestIsListed(hash, b, n);
    CutSplits(head, rest, limit);
    if CutPage(head, rest, limit).truncated {
      UnchangedIsServed(rest, Log(b), |b.hist|, StateListing(b)[n - 1].revision, head, limit, x);
    }
  }

  lemma ListedIndex(b: Book, n: nat, x: Href) returns (i: nat)
    requires n <= |StateListing(b)| && x in b.cards && x !in Hrefs(StateListing(b)[n..])
    ensures i < n && StateListing(b)[i].href == x
  {
    var listing, c := StateListing(b), CardState(b, x);
    assert listing == listing[..n] + listing[n..];
    assert c in listing && c !in listing[n..];
    i :| 0 <= i < n && listing[..n][i] == c;
  }

  /** No card that the client held at the cut is gone unnoticed at the token; and if the cut fell among
      the cards without rows, every card before it has changed since. */
  ghost predicate NothingLost(b: Book, n: nat, k: nat, t: nat)
    requires n <= |StateListing(b)| && k <= |b.hist| && t <= |b.hist|
  {
    && (forall x :: x in StateAt(Log(b), k) && x !in b.cards ==> ChangedIn(Log(b), t, |b.hist|, x))
    && (k == 0 ==> forall i :: 0 <= i < n ==> ChangedIn(Log(b), t, |b.hist|, StateListing(b)[i].href))
  }

  lemma HeldIsNow(hash: Hash, b: Book, n: nat, head: nat, limit: int, x: Href)
    requires BookOk(hash, b) && TimeOrdered(b.hist) && 0 < n < |StateListing(b)| && head <= |b.hist|
    requires var k, p := StateListing(b)[n - 1].revision, CutPage(head, StateListing(b)[n..], limit);
      && k <= |b.hist| && p.tokenRevision <= |b.hist| && NothingLost(b, n, k, p.tokenRevision)
      && !ChangedIn(Log(b), p.tokenRevision, |b.hist|, x) && x !in Hrefs(p.items)
    ensures Get(StateAt(Log(b), StateListing(b)[n - 1].revision), x) == Get(StateAt(Log(b), |b.hist|), x)
  {
    var k := StateListing(b)[n - 1].revision;
    assert x in b.cards <==> x in Etags(b.cards);
    if x in b.cards {
      UnchangedIsServedBefore(hash, b, n, head, limit, x);
      var i := ListedIndex(b, n, x);
      ServedUnchangedSinceCut(hash, b, n, x);
      StateUnchanged(Log(b), k, |b.hist|, x);
    }
  }

  /** Any page of another client's first listing, cut at k, served to a client that holds exactly the
      state at k, whatever was written after the listing: it leaves the convergence guarantee at the
      page's token, with the listing's revision as bound, if and only if nothing is lost. */
  lemma ForeignPageAgreesIff(hash: Hash, b: Book, n: nat, head: nat, limit: int, log': seq<Change>)
    requires BookOk(hash, b) && TimeOrdered(b.hist) && 0 < n < |StateListing(b)| && head <= |b.hist| && Log(b) <= log'
    ensures var rest, k := StateListing(b)[n..], StateListing(b)[n - 1].revision;
      var p := CutPage(head, rest, limit);
      && k <= p.tokenRevision <= |b.hist|
      && (Agrees(ApplyPage(StateAt(log', k), p), log', p.tokenRevision, |b.hist|) <==> NothingLost(b, n, k, p.tokenRevision))
  {
    var log, k, p := Log(b), StateListing(b)[n - 1].revision, CutPage(head, StateListing(b)[n..], limit);
    ForeignPageLookup(hash, b, n, head, limit, "");
    assert log'[..k] == log[..k];
    AgreesOnPrefixIff(ApplyPage(StateAt(log, k), p), log, log', p.tokenRevision, |log|);
    if NothingLost(b, n, k, p.tokenRevision) { NothingLostAgrees(hash, b, n, head, limit); }
    if Agrees(ApplyPage(StateAt(log, k), p), log, p.tokenRevision, |log|) { AgreesLosesNothing(hash, b, n, head, limit); }
  }

  lemma NothingLostAgrees(hash: Hash, b: Book, n: nat, head: nat, limit: int)
    requires BookOk(hash, b) && TimeOrdered(b.hist) && 0 < n < |StateListing(b)| && head <= |b.hist|
    requires var k, p := StateListing(b)[n - 1].revision, CutPage(head, StateListing(b)[n..], limit);
      k <= |b.hist| && p.tokenRevision <= |b.hist| && NothingLost(b, n, k, p.tokenRevision)
    ensures var k, p := StateListing(b)[n - 1].revision, CutPage(head, StateListing(b)[n..], limit);
      Agrees(ApplyPage(StateAt(Log(b), k), p), Log(b), p.tokenRevision, |b.hist|)
  {
    var log, k, p := Log(b), StateListing(b)[n - 1].revision, CutPage(head, StateListing(b)[n..], limit);
    forall x | !ChangedIn(log, p.tokenRevision, |log|, x)
      ensures Get(ApplyPage(StateAt(log, k), p), x) == Get(StateAt(log, p.tokenRevision), x)
    {
      ForeignPageLookup(hash, b, n, head, limit, x);
      StateUnchanged(log, p.tokenRevision, |log|, x);
      if x !in Hrefs(p.items) { HeldIsNow(hash, b, n, head, limit, x); }
    }
  }

  lemma AgreesLosesNothing(hash: Hash, b: Book, n: nat, head: nat, limit: int)
    requires BookOk(hash, b) && TimeOrdered(b.hist) && 0 < n < |StateListing(b)| && head <= |b.hist|
    requires var k, p := StateListing(b)[n - 1].revision, CutPage(head, StateListing(b)[n..], limit);
      k <= |b.hist| && p.tokenRevision <= |b.hist| && Agrees(ApplyPage(StateAt(Log(b), k), p), Log(b), p.tokenRevision, |b.hist|)
    ensures NothingLost(b, n, StateListing(b)[n - 1].revision, CutPage(head, StateListing(b)[n..], limit).tokenRevision)
  {
    var listing, log := StateListing(b), Log(b);
    var k, p := listing[n - 1].revision, CutPage(head, listing[n..], limit);
    var t := p.tokenRevision;
    forall x | x in StateAt(log, k) && x !in b.cards ensures ChangedIn(log, t, |log|, x) {
      ForeignPageLookup(hash, b, n, head, limit, x);
      assert x !in Etags(b.cards);
      if !ChangedIn(log, t, |log|, x) { StateUnchanged(log, t, |log|, x); }
    }
    if k == 0 {
      forall i | 0 <= i < n ensures ChangedIn(log, t, |log|, listing[i].href) {
        ZeroCutNotServed(hash, b, n, head, limit, i);
        if !ChangedIn(log, t, |log|, listing[i].href) { StateUnchanged(log, t, |log|, listing[i].href); }
      }
    }
  }

  lemma ZeroCutNotServed(hash: Hash, b: Book, n: nat, head: nat, limit: int, i: nat)
    requires BookOk(hash, b) && 0 < n < |StateListing(b)| && head <= |b.hist| && i < n && StateListing(b)[n - 1].revision == 0
    ensures var p, x := CutPage(head, StateListing(b)[n..], limit), StateListing(b)[i].href;
      && Get(ApplyPage(StateAt(Log(b), 0), p), x) == None && Get(StateAt(Log(b), |b.hist|), x) != None
  {
    var listing := StateListing(b);
    var x, p := listing[i].href, CutPage(head, listing[n..], limit);
    ForeignPageLookup(hash, b, n, head, limit, x);
    CutSplits(head, listing[n..], limit);
    SortedIsDistinct(listing);
    assert x !in Hrefs(listing[n..]) by {
      forall c | c in listing[n..] ensures c.href != x {}
    }
    assert Log(b)[..0] == [];
    assert listing[i] in listing;
    assert x in Etags(b.cards);
  }
}
