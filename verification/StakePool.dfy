/** The stake pool: violations recorded on a stake, and stakes taken over from peers. */
module StakePool {
  import opened Types
  import Slashing

  /** The fields of a stake that the merge and the slashing touch; the rest is kept as one value. */
  datatype StakeInfo = StakeInfo(amount: nat, violations: nat, hostID: string, rest: string)

  type Stakes = map<string, StakeInfo>

  /** What a peer sends: some entries may be nil. */
  type PeerStakes = map<string, Option<StakeInfo>>

  // ---------- the merge ----------

  /** A peer's entry replaces the local one only if it is larger. */
  predicate Takes(stakes: Stakes, peer: PeerStakes, w: string) {
    w in peer && peer[w].Some? && (w !in stakes || peer[w].value.amount > stakes[w].amount)
  }

  function Merged(stakes: Stakes, peer: PeerStakes): Stakes {
    map w | w in stakes.Keys + peer.Keys && (w in stakes || Takes(stakes, peer, w)) ::
      if Takes(stakes, peer, w) then peer[w].value else stakes[w]
  }

  function MergedHosts(hosts: map<string, string>, stakes: Stakes, peer: PeerStakes): map<string, string> {
    map w | w in hosts.Keys + peer.Keys && (w in hosts || Takes(stakes, peer, w)) ::
      if Takes(stakes, peer, w) then peer[w].value.hostID else hosts[w]
  }

  function MergedAll(stakes: Stakes, peers: seq<PeerStakes>): Stakes {
    if peers == [] then stakes else Merged(MergedAll(stakes, peers[..|peers| - 1]), peers[|peers| - 1])
  }

  class StakePool {
    var stakes: Stakes
    var walletToHost: map<string, string>

    constructor ()
      ensures stakes == map[] && walletToHost == map[]
    {
      stakes, walletToHost := map[], map[];
    }

    method RecordViolation(address: string) returns (ok: bool)
      modifies `stakes
      ensures ok <==> address in old(stakes)
      ensures stakes == if ok then old(stakes)[address := Violated(old(stakes)[address])] else old(stakes)
    {
      ok := address in stakes;
      if ok {
        var stake := stakes[address];
        stake := stake.(violations := stake.violations + 1);
        if stake.violations >= Slashing.SLASHING_THRESHOLD {
          var slashedAmount := stake.amount / 2;
          stake := stake.(amount := stake.amount - slashedAmount);
        }
        stakes := stakes[address := stake];
      }
    }

    /** The merge loop of SyncWithPeer, over the peer's map in its arbitrary order. */
    method MergePeer(peer: PeerStakes)
      modifies this
      ensures stakes == Merged(old(stakes), peer)
      ensures walletToHost == MergedHosts(old(walletToHost), old(stakes), peer)
    {
      var todo := peer.Keys;
      ghost var done: set<string> := {};
      MergedNothing(stakes, walletToHost, peer);
      while todo != {}
        invariant done !! todo && done + todo == peer.Keys
        invariant stakes == Merged(old(stakes), Part(peer, done))
        invariant walletToHost == MergedHosts(old(walletToHost), old(stakes), Part(peer, done))
      {
        var wallet :| wallet in todo;
        MergedOneMore(old(stakes), old(walletToHost), peer, done, wallet);
        if peer[wallet].Some? {
          var peerStake := peer[wallet].value;
          if wallet !in stakes || peerStake.amount > stakes[wallet].amount {
            stakes := stakes[wallet := peerStake];
            walletToHost := walletToHost[wallet := peerStake.hostID];
          }
        }
        todo, done := todo - {wallet}, done + {wallet};
      }
      assert Part(peer, done) == peer;
    }
  }

  /** The entries visited so far. */
  ghost function Part(peer: PeerStakes, done: set<string>): PeerStakes { map w | w in peer && w in done :: peer[w] }

  lemma {:induction false} MergedNothing(stakes: Stakes, hosts: map<string, string>, peer: PeerStakes)
    ensures Merged(stakes, Part(peer, {})) == stakes && MergedHosts(hosts, stakes, Part(peer, {})) == hosts
  {
  }

  /** One more entry of the peer: taken if it is new or larger, as compared with the pool at that moment. */
  lemma {:induction false} MergedOneMore(
      stakes: Stakes, hosts: map<string, string>, peer: PeerStakes, done: set<string>, w: string)
    requires w in peer && w !in done
    ensures var s, h := Merged(stakes, Part(peer, done)), MergedHosts(hosts, stakes, Part(peer, done));
      var s', h' := Merged(stakes, Part(peer, done + {w})), MergedHosts(hosts, stakes, Part(peer, done + {w}));
      if peer[w].Some? && (w !in s || peer[w].value.amount > s[w].amount)
      then s' == s[w := peer[w].value] && h' == h[w := peer[w].value.hostID]
      else s' == s && h' == h
  {
    StakesOneMore(stakes, peer, done, w);
    HostsOneMore(hosts, stakes, peer, done, w);
  }

  /** What a part of the peer's map lets the pool take. */
  lemma {:induction false} TakesFromPart(stakes: Stakes, peer: PeerStakes, done: set<string>, x: string)
    ensures Takes(stakes, Part(peer, done), x) <==> x in done && Takes(stakes, peer, x)
  {
  }

  lemma {:induction false} StakesOneMore(stakes: Stakes, peer: PeerStakes, done: set<string>, w: string)
    requires w in peer && w !in done
    ensures var s := Merged(stakes, Part(peer, done));
      && (Takes(stakes, peer, w) <==> peer[w].Some? && (w !in s || peer[w].value.amount > s[w].amount))
      && Merged(stakes, Part(peer, done + {w})) == if Takes(stakes, peer, w) then s[w := peer[w].value] else s
  {
    var s := Merged(stakes, Part(peer, done));
    var t := Merged(stakes, Part(peer, done + {w}));
    var u := if Takes(stakes, peer, w) then s[w := peer[w].value] else s;
    TakesFromPart(stakes, peer, done, w);
    forall x ensures (x in t <==> x in u) && (x in t ==> t[x] == u[x]) {
      TakesFromPart(stakes, peer, done, x);
      TakesFromPart(stakes, peer, done + {w}, x);
    }
    assert t == u;
  }

  lemma {:induction false} HostsOneMore(
      hosts: map<string, string>, stakes: Stakes, peer: PeerStakes, done: set<string>, w: string)
    requires w in peer && w !in done
    ensures var h := MergedHosts(hosts, stakes, Part(peer, done));
      MergedHosts(hosts, stakes, Part(peer, done + {w})) ==
      if Takes(stakes, peer, w) then h[w := peer[w].value.hostID] else h
  {
    var h := MergedHosts(hosts, stakes, Part(peer, done));
    var t := MergedHosts(hosts, stakes, Part(peer, done + {w}));
    var u := if Takes(stakes, peer, w) then h[w := peer[w].value.hostID] else h;
    TakesFromPart(stakes, peer, done, w);
    forall x ensures (x in t <==> x in u) && (x in t ==> t[x] == u[x]) {
      TakesFromPart(stakes, peer, done, x);
      TakesFromPart(stakes, peer, done + {w}, x);
    }
    assert t == u;
  }

  // ---------- merging is taking maxima ----------

  function AmountAt(stakes: Stakes, w: string): Option<nat> {
    if w in stakes then Some(stakes[w].amount) else None
  }

  function Offered(peer: PeerStakes, w: string): Option<nat> {
    if w in peer && peer[w].Some? then Some(peer[w].value.amount) else None
  }

  function Larger(a: Option<nat>, b: Option<nat>): Option<nat> {
    if a.None? then b else if b.None? || b.value <= a.value then a else b
  }

  lemma {:induction false} MergeIsMaximum(stakes: Stakes, peer: PeerStakes, w: string)
    ensures AmountAt(Merged(stakes, peer), w) == Larger(AmountAt(stakes, w), Offered(peer, w))
  {
  }

  predicate AtMost(a: Option<nat>, b: Option<nat>) { a.None? || (b.Some? && a.value <= b.value) }

  /** After any merges the amount is the largest of the local one and all those offered. */
  lemma {:induction false} MergesAreMaximum(stakes: Stakes, peers: seq<PeerStakes>, w: string)
    ensures var a := AmountAt(MergedAll(stakes, peers), w);
      && AtMost(AmountAt(stakes, w), a)
      && (forall p :: p in peers ==> AtMost(Offered(p, w), a))
      && (a == AmountAt(stakes, w) || exists p :: p in peers && a == Offered(p, w))
  {
    if peers != [] {
      var init, last := peers[..|peers| - 1], peers[|peers| - 1];
      MergesAreMaximum(stakes, init, w);
      MergeIsMaximum(MergedAll(stakes, init), last, w);
      assert peers == init + [last];
      var before, a := AmountAt(MergedAll(stakes, init), w), AmountAt(MergedAll(stakes, peers), w);
      assert AtMost(before, a) && (a == before || a == Offered(last, w));
      forall p | p in peers ensures AtMost(Offered(p, w), a) {
        if p in init { assert AtMost(Offered(p, w), before); }
      }
      if a == before && before != AmountAt(stakes, w) {
        var p :| p in init && before == Offered(p, w);
        assert p in peers;
      }
    }
  }

  /** Merging never lowers a stake and never removes one, over any run. */
  lemma {:induction false} MergesNeverLower(stakes: Stakes, peers: seq<PeerStakes>, w: string)
    requires w in stakes
    ensures w in MergedAll(stakes, peers) && MergedAll(stakes, peers)[w].amount >= stakes[w].amount
  {
    MergesAreMaximum(stakes, peers, w);
  }

  /** Which peers were heard decides the amounts; in which order, and how often, does not. */
  lemma {:induction false} PeerOrderIrrelevant(stakes: Stakes, ps: seq<PeerStakes>, qs: seq<PeerStakes>, w: string)
    requires forall p :: p in ps <==> p in qs
    ensures AmountAt(MergedAll(stakes, ps), w) == AmountAt(MergedAll(stakes, qs), w)
  {
    MergesAreMaximum(stakes, ps, w);
    MergesAreMaximum(stakes, qs, w);
    var a, b := AmountAt(MergedAll(stakes, ps), w), AmountAt(MergedAll(stakes, qs), w);
    assert AtMost(a, b) by {
      if a != AmountAt(stakes, w) { var p :| p in ps && a == Offered(p, w); assert p in qs; }
    }
    assert AtMost(b, a) by {
      if b != AmountAt(stakes, w) { var p :| p in qs && b == Offered(p, w); assert p in ps; }
    }
  }

  /** Hearing the same peer again changes nothing at all, hosts included. */
  lemma {:induction false} MergeIsIdempotent(stakes: Stakes, hosts: map<string, string>, peer: PeerStakes)
    ensures Merged(Merged(stakes, peer), peer) == Merged(stakes, peer)
    ensures MergedHosts(MergedHosts(hosts, stakes, peer), Merged(stakes, peer), peer) ==
            MergedHosts(hosts, stakes, peer)
  {
    var once := Merged(stakes, peer);
    forall w ensures !Takes(once, peer, w) { }
  }

  /** The host table names the host of every stake. */
  ghost predicate HostsMatch(stakes: Stakes, hosts: map<string, string>) {
    forall w :: w in stakes ==> w in hosts && hosts[w] == stakes[w].hostID
  }

  lemma {:induction false} MergeKeepsHosts(stakes: Stakes, hosts: map<string, string>, peer: PeerStakes)
    requires HostsMatch(stakes, hosts)
    ensures HostsMatch(Merged(stakes, peer), MergedHosts(hosts, stakes, peer))
  {
  }

  // ---------- violations ----------

  function Violated(stake: StakeInfo): StakeInfo {
    var v := stake.violations + 1;
    var kept := if v >= Slashing.SLASHING_THRESHOLD then stake.amount - stake.amount / 2 else stake.amount;
    stake.(violations := v, amount := kept)
  }

  function ViolatedTimes(stake: StakeInfo, n: nat): StakeInfo {
    if n == 0 then stake else Violated(ViolatedTimes(stake, n - 1))
  }

  /** The two ways of slashing leave the same amounts, violation by violation. */
  lemma {:induction false} SlashingsAgree(stake: StakeInfo, pool: real, n: nat)
    ensures var c := Slashing.ViolateTimes(Slashing.Account(stake.violations, stake.amount, pool), n);
      ViolatedTimes(stake, n).amount == c.amount && ViolatedTimes(stake, n).violations == c.violations
  {
    if n > 0 { SlashingsAgree(stake, pool, n - 1); }
  }

  /** Violations never raise a stake, and lower it exactly when one of them slashes and there is something to take. */
  lemma {:induction false} LoweredIff(stake: StakeInfo, n: nat)
    ensures ViolatedTimes(stake, n).violations == stake.violations + n
    ensures ViolatedTimes(stake, n).hostID == stake.hostID && ViolatedTimes(stake, n).rest == stake.rest
    ensures ViolatedTimes(stake, n).amount <= stake.amount
    ensures ViolatedTimes(stake, n).amount < stake.amount <==>
            n > 0 && stake.violations + n >= Slashing.SLASHING_THRESHOLD && stake.amount >= 2
  {
    if n > 0 { LoweredIff(stake, n - 1); }
  }

  /** A peer that still holds the old entry undoes the violations since exactly when they took something. */
  lemma {:induction false} StalePeerUndoesSlashIff(stakes: Stakes, w: string, n: nat)
    requires w in stakes
    ensures var slashed := stakes[w := ViolatedTimes(stakes[w], n)];
      Merged(slashed, map[w := Some(stakes[w])])[w] == stakes[w] <==>
      n == 0 || (stakes[w].violations + n >= 3 && stakes[w].amount >= 2)
  {
    LoweredIff(stakes[w], n);
  }
}
