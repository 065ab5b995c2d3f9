/** The meaning of a change history: what a replica holds after replaying it, and what it means
    for a replica to agree with the server up to a revision. Nothing here knows about paging. */
module History {
  import opened Basics

  type Href = string
  type ETag = string

  // What a client knows of an addressbook, and what the server holds, seen through ETags.
  type Replica = map<Href, ETag>

  // One change as ListCardChangesSince returns it (CardChange, syncPageItem).
  datatype Change = Change(revision: nat, href: Href, etag: ETag, deleted: bool)

  function Effect(m: Replica, c: Change): Replica {
    if c.deleted then m - {c.href} else m[c.href := c.etag]
  }

  function Replay(m: Replica, cs: seq<Change>): Replica {
    if cs == [] then m else Effect(Replay(m, cs[..|cs| - 1]), cs[|cs| - 1])
  }

  /** The server's cards at revision n. */
  function StateAt(log: seq<Change>, n: nat): Replica
    requires n <= |log|
  {
    Replay(map[], log[..n])
  }

  /** Entry i of a full history carries revision i + 1. */
  ghost predicate Numbered(log: seq<Change>) {
    forall i :: 0 <= i < |log| ==> log[i].revision == i + 1
  }

  /** Some change with a revision in (lo, hi] touches x. */
  ghost predicate ChangedIn(log: seq<Change>, lo: nat, hi: nat, x: Href)
    requires hi <= |log|
  {
    exists i :: lo <= i < hi && log[i].href == x
  }

  /** The convergence guarantee: on every href not changed in (k, bound], the replica shows what
      the server showed at revision k. For bound <= k that is every href. */
  ghost predicate Agrees(r: Replica, log: seq<Change>, k: nat, bound: nat) {
    && k <= |log| && bound <= |log|
    && forall x :: !ChangedIn(log, k, bound, x) ==> Get(r, x) == Get(StateAt(log, k), x)
  }

  function Hrefs(cs: seq<Change>): set<Href> { set c | c in cs :: c.href }

  lemma {:induction false} ReplayConcat(m: Replica, a: seq<Change>, b: seq<Change>)
    ensures Replay(m, a + b) == Replay(Replay(m, a), b)
  {
    if b == [] {
      assert a + b == a;
    } else {
      var n := |b| - 1;
      assert (a + b)[..|a| + n] == a + b[..n];
      ReplayConcat(m, a, b[..n]);
    }
  }

  lemma ReplayFirst(m: Replica, cs: seq<Change>)
    requires cs != []
    ensures Replay(m, cs) == Replay(Effect(m, cs[0]), cs[1..])
  {
    assert cs == cs[..1] + cs[1..];
    ReplayConcat(m, cs[..1], cs[1..]);
    assert cs[..1][..0] == [];
  }

  lemma {:induction false} ReplayUntouched(m: Replica, cs: seq<Change>, x: Href)
    requires x !in Hrefs(cs)
    ensures Get(Replay(m, cs), x) == Get(m, x)
  {
    if cs != [] {
      var n := |cs| - 1;
      assert cs[n] in cs;
      forall c | c in cs[..n] ensures c in cs {}
      ReplayUntouched(m, cs[..n], x);
    }
  }

  /** What a replay leaves at an href that it touches does not depend on where it started. */
  lemma {:induction false} ReplayForgets(m: Replica, n: Replica, cs: seq<Change>, x: Href)
    requires x in Hrefs(cs)
    ensures Get(Replay(m, cs), x) == Get(Replay(n, cs), x)
  {
    var k := |cs| - 1;
    if cs[k].href != x {
      var c :| c in cs && c.href == x;
      assert c in cs[..k];
      ReplayForgets(m, n, cs[..k], x);
    }
  }

  lemma StateSplit(log: seq<Change>, k: nat, m: nat)
    requires k <= m <= |log|
    ensures StateAt(log, m) == Replay(StateAt(log, k), log[k..m])
  {
    assert log[..m] == log[..k] + log[k..m];
    ReplayConcat(map[], log[..k], log[k..m]);
  }

  lemma StateUnchanged(log: seq<Change>, k: nat, m: nat, x: Href)
    requires k <= m <= |log| && !ChangedIn(log, k, m, x)
    ensures Get(StateAt(log, k), x) == Get(StateAt(log, m), x)
  {
    StateSplit(log, k, m);
    ReplayUntouched(StateAt(log, k), log[k..m], x);
  }

  /** A card that is live at n was put by some change up to n. */
  lemma {:induction false} LiveWasChanged(log: seq<Change>, n: nat, x: Href)
    requires n <= |log| && x in StateAt(log, n)
    ensures ChangedIn(log, 0, n, x)
  {
    assert x !in StateAt(log, 0) by { assert log[..0] == []; }
    if !ChangedIn(log, 0, n, x) { StateUnchanged(log, 0, n, x); }
  }

  /** Replaying (k, m] moves the guarantee from k to m. */
  lemma {:induction false} ReplayAdvances(r: Replica, log: seq<Change>, k: nat, m: nat, bound: nat)
    requires k <= m <= |log| && Agrees(r, log, k, bound)
    ensures Agrees(Replay(r, log[k..m]), log, m, bound)
  {
    var cs := log[k..m];
    StateSplit(log, k, m);
    forall x | !ChangedIn(log, m, bound, x)
      ensures Get(Replay(r, cs), x) == Get(StateAt(log, m), x)
    {
      if x in Hrefs(cs) {
        ReplayForgets(r, StateAt(log, k), cs, x);
      } else {
        ReplayUntouched(r, cs, x);
        ReplayUntouched(StateAt(log, k), cs, x);
        forall i | k <= i < bound ensures log[i].href != x {
          if i < m { assert cs[i - k] in cs; }
        }
      }
    }
  }

  /** Past its bound a replica is exactly the server's state. */
  lemma AgreesExactly(r: Replica, log: seq<Change>, k: nat, bound: nat)
    requires Agrees(r, log, k, bound) && bound <= k
    ensures r == StateAt(log, k)
  {
    forall x ensures Get(r, x) == Get(StateAt(log, k), x) {
      assert !ChangedIn(log, k, bound, x);
    }
    SameLookupsSameMap(r, StateAt(log, k));
  }

  /** Later changes do not disturb a guarantee about earlier ones. */
  lemma AgreesExtends(r: Replica, log: seq<Change>, log': seq<Change>, k: nat, bound: nat)
    requires Agrees(r, log, k, bound) && log <= log'
    ensures Agrees(r, log', k, bound)
  {
    assert log'[..k] == log[..k];
    forall x | !ChangedIn(log', k, bound, x) ensures !ChangedIn(log, k, bound, x) {}
  }

  /** A guarantee about a prefix of the history is one about the history, and the other way round. */
  lemma AgreesOnPrefixIff(r: Replica, log: seq<Change>, log': seq<Change>, k: nat, bound: nat)
    requires k <= |log| && bound <= |log| && log <= log'
    ensures Agrees(r, log', k, bound) <==> Agrees(r, log, k, bound)
  {
    assert log'[..k] == log[..k];
    assert forall x :: ChangedIn(log', k, bound, x) <==> ChangedIn(log, k, bound, x);
  }
}
