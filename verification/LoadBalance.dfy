/**
 Placing a new session: an overloaded server may send the client to the peer with the smallest
 weighted load. Loads are real numbers: active sessions over capacity.
 */
module LoadBalance {
  import opened Wrappers

  const LOAD_REDIRECT_THRESHOLD: real := 0.9

  datatype ServerInfo = ServerInfo(active: nat, capacity: nat)

  datatype PeerLoad = PeerLoad(index: nat, loadFactor: real, weight: nat)

  /** A configured peer, its placement weight, and what it answered, if it answered in time. */
  datatype Candidate = Candidate(weight: nat, answer: Option<ServerInfo>)

  function AtLeastOne(n: nat): nat { if n == 0 then 1 else n }

  function LoadFactor(active: nat, capacity: nat): real {
    active as real / AtLeastOne(capacity) as real
  }

  function Score(p: PeerLoad): real { p.loadFactor / AtLeastOne(p.weight) as real }

  /** The first peer with the smallest score among those below capacity. */
  function Best(peers: seq<PeerLoad>): Option<PeerLoad> {
    if peers == [] then None
    else
      var n := |peers| - 1;
      var earlier := Best(peers[..n]);
      if !(peers[n].loadFactor < 1.0) then earlier
      else if earlier.Some? && !(Score(peers[n]) < Score(earlier.value)) then earlier
      else Some(peers[n])
  }

  function Loads(candidates: seq<Candidate>): seq<PeerLoad> {
    if candidates == [] then []
    else
      var n := |candidates| - 1;
      var c := candidates[n];
      Loads(candidates[..n])
      + if c.answer.Some? then [PeerLoad(n, LoadFactor(c.answer.value.active, c.answer.value.capacity), c.weight)] else []
  }

  /** The candidate a new session is sent to, or none: it is then created here. */
  method PickPeer(localLoad: real, secret: string, candidates: seq<Candidate>) returns (r: Option<nat>)
    ensures r == Picked(localLoad, secret, candidates)
  {
    if localLoad <= LOAD_REDIRECT_THRESHOLD || secret == "" {
      return None;
    }
    var loads := [];
    var i := 0;
    while i < |candidates|
      invariant 0 <= i <= |candidates|
      invariant loads == Loads(candidates[..i])
    {
      assert candidates[..i + 1][..i] == candidates[..i];
      var answer := candidates[i].answer;
      if answer.Some? {
        loads := loads + [PeerLoad(i, LoadFactor(answer.value.active, answer.value.capacity), candidates[i].weight)];
      }
      i := i + 1;
    }
    assert candidates[..i] == candidates;
    var best := Best(loads);
    if best.Some? && best.value.loadFactor < localLoad {
      return Some(best.value.index);
    }
    r := None;
  }

  function Picked(localLoad: real, secret: string, candidates: seq<Candidate>): Option<nat> {
    var best := Best(Loads(candidates));
    if localLoad > LOAD_REDIRECT_THRESHOLD && secret != "" && best.Some? && best.value.loadFactor < localLoad
    then Some(best.value.index) else None
  }

  // ----- what is chosen

  /** What candidate `i` advertises, if it answered. */
  function Advertised(candidates: seq<Candidate>, i: nat): Option<PeerLoad>
    requires i < |candidates|
  {
    var c := candidates[i];
    if c.answer.None? then None
    else Some(PeerLoad(i, LoadFactor(c.answer.value.active, c.answer.value.capacity), c.weight))
  }

  lemma {:induction false} LoadsAre(candidates: seq<Candidate>, p: PeerLoad)
    ensures p in Loads(candidates) <==> p.index < |candidates| && Advertised(candidates, p.index) == Some(p)
  {
    if candidates != [] {
      LoadsAre(candidates[..|candidates| - 1], p);
    }
  }

  lemma {:induction false} BestIsLeast(peers: seq<PeerLoad>)
    ensures Best(peers).None? <==> forall p :: p in peers ==> p.loadFactor >= 1.0
    ensures Best(peers).Some? ==>
              && Best(peers).value in peers && Best(peers).value.loadFactor < 1.0
              && forall p :: p in peers && p.loadFactor < 1.0 ==> Score(Best(peers).value) <= Score(p)
  {
    if peers != [] {
      var n := |peers| - 1;
      BestIsLeast(peers[..n]);
      assert peers == peers[..n] + [peers[n]];
    }
  }

  /** Among peers with the same weighted load the first one asked is selected. */
  lemma {:induction false} BestIsFirst(peers: seq<PeerLoad>) returns (i: nat)
    requires Best(peers).Some?
    ensures i < |peers| && peers[i] == Best(peers).value
    ensures forall j :: 0 <= j < i && peers[j].loadFactor < 1.0 ==> Score(peers[j]) > Score(peers[i])
  {
    var n := |peers| - 1;
    BestIsLeast(peers[..n]);
    if Best(peers) == Best(peers[..n]) {
      i := BestIsFirst(peers[..n]);
    } else {
      i := n;
      forall j | 0 <= j < n && peers[j].loadFactor < 1.0 ensures Score(peers[j]) > Score(peers[n]) {
        assert peers[j] in peers[..n];
      }
    }
  }

  /** A redirect leads to a peer that answered, is below capacity, is less loaded than this server,
      and has the smallest weighted load of all that answered. */
  lemma PickedIsLighter(localLoad: real, secret: string, candidates: seq<Candidate>)
    requires Picked(localLoad, secret, candidates).Some?
    ensures var i := Picked(localLoad, secret, candidates).value;
            && localLoad > LOAD_REDIRECT_THRESHOLD
            && i < |candidates| && Advertised(candidates, i).Some?
            && Advertised(candidates, i).value.loadFactor < localLoad
            && Advertised(candidates, i).value.loadFactor < 1.0
            && forall j :: 0 <= j < |candidates| && Advertised(candidates, j).Some? && Advertised(candidates, j).value.loadFactor < 1.0 ==>
                 Score(Advertised(candidates, i).value) <= Score(Advertised(candidates, j).value)
  {
    var best := Best(Loads(candidates)).value;
    BestIsLeast(Loads(candidates));
    LoadsAre(candidates, best);
    forall j | 0 <= j < |candidates| && Advertised(candidates, j).Some? && Advertised(candidates, j).value.loadFactor < 1.0
      ensures Score(best) <= Score(Advertised(candidates, j).value)
    {
      LoadsAre(candidates, Advertised(candidates, j).value);
    }
  }

  lemma ScoreOrder(a: PeerLoad, b: PeerLoad)
    requires a.weight == b.weight
    ensures Score(a) <= Score(b) <==> a.loadFactor <= b.loadFactor
  {
    var w := AtLeastOne(a.weight) as real;
    assert Score(a) * w == a.loadFactor && Score(b) * w == b.loadFactor;
  }

  /** Among peers of equal weight a server redirects if and only if it is above the threshold, has
      the cluster's secret, and some peer that answered is less loaded and below capacity. */
  lemma EqualWeightsRedirectIff(localLoad: real, secret: string, candidates: seq<Candidate>)
    requires forall i, j :: 0 <= i < j < |candidates| ==> candidates[i].weight == candidates[j].weight
    ensures Picked(localLoad, secret, candidates).Some?
       <==> localLoad > LOAD_REDIRECT_THRESHOLD && secret != ""
            && exists i :: 0 <= i < |candidates| && Advertised(candidates, i).Some?
                           && Advertised(candidates, i).value.loadFactor < localLoad
                           && Advertised(candidates, i).value.loadFactor < 1.0
  {
    if Picked(localLoad, secret, candidates).Some? {
      PickedIsLighter(localLoad, secret, candidates);
    }
    forall i | 0 <= i < |candidates| && Advertised(candidates, i).Some?
               && Advertised(candidates, i).value.loadFactor < localLoad && Advertised(candidates, i).value.loadFactor < 1.0
      ensures localLoad > LOAD_REDIRECT_THRESHOLD && secret != "" ==> Picked(localLoad, secret, candidates).Some?
    {
      var p := Advertised(candidates, i).value;
      LoadsAre(candidates, p);
      BestIsLeast(Loads(candidates));
      var best := Best(Loads(candidates)).value;
      LoadsAre(candidates, best);
      ScoreOrder(best, p);
    }
  }

  /** With different weights it may stay although a lighter peer answered. */
  lemma LighterPeerNotTaken()
    ensures var candidates := [Candidate(100, Some(ServerInfo(95, 100))), Candidate(1, Some(ServerInfo(50, 100)))];
            Advertised(candidates, 1).value.loadFactor < 0.92 && Picked(0.92, "secret", candidates).None?
  {
    var a, b := Candidate(100, Some(ServerInfo(95, 100))), Candidate(1, Some(ServerInfo(50, 100)));
    var p, q := PeerLoad(0, LoadFactor(95, 100), 100), PeerLoad(1, LoadFactor(50, 100), 1);
    assert [a, b][..1] == [a] && [a][..0] == [];
    assert Loads([a]) == [p] && Loads([a, b]) == [p, q];
    assert p.loadFactor == 0.95 && q.loadFactor == 0.5;
    assert Score(p) == 0.0095 && Score(q) == 0.5;
    var one, two := [p], [p, q];
    assert one[..0] == [] && Best(one) == Some(p);
    assert two[..1] == one && two[1] == q && Best(two) == Some(p);
  }

  // ----- chains of redirects

  /** What each server hears from its peers is the servers' actual load. */
  ghost predicate Truthful(loads: seq<real>, views: seq<seq<Candidate>>) {
    && |views| == |loads|
    && forall s, t :: 0 <= s < |views| && 0 <= t < |views[s]| && Advertised(views[s], t).Some? ==>
         t < |loads| && Advertised(views[s], t).value.loadFactor == loads[t]
  }

  /** The servers a client with a new session is sent to one after another. */
  ghost predicate SentOn(loads: seq<real>, views: seq<seq<Candidate>>, secret: string, path: seq<nat>)
    requires |views| == |loads|
  {
    && (forall k :: 0 <= k < |path| ==> path[k] < |loads|)
    && forall k :: 0 <= k < |path| - 1 ==> Picked(loads[path[k]], secret, views[path[k]]) == Some(path[k + 1])
  }

  lemma {:induction false} LaterIsLighter(loads: seq<real>, views: seq<seq<Candidate>>, secret: string, path: seq<nat>, i: nat, j: nat)
    requires Truthful(loads, views) && SentOn(loads, views, secret, path) && i < j < |path|
    ensures loads[path[j]] < loads[path[i]]
    decreases j
  {
    if i < j - 1 {
      LaterIsLighter(loads, views, secret, path, i, j - 1);
    }
    var from := path[j - 1];
    assert Picked(loads[from], secret, views[from]) == Some(path[j - 1 + 1]);
    PickedIsLighter(loads[from], secret, views[from]);
  }

  function Elements(s: seq<nat>): set<nat> { set x | x in s }

  function Below(n: nat): (r: set<nat>)
    ensures |r| == n && forall k: nat :: k in r <==> k < n
  {
    if n == 0 then {} else Below(n - 1) + {n - 1}
  }

  lemma {:induction false} DistinctSize(path: seq<nat>)
    requires forall i, j :: 0 <= i < j < |path| ==> path[i] != path[j]
    ensures |Elements(path)| == |path|
  {
    if path != [] {
      var n := |path| - 1;
      DistinctSize(path[..n]);
      assert path == path[..n] + [path[n]];
      assert Elements(path) == Elements(path[..n]) + {path[n]};
      assert path[n] !in Elements(path[..n]);
    }
  }

  lemma {:induction false} SubsetSize(a: set<nat>, b: set<nat>)
    requires a <= b
    ensures |a| <= |b|
  {
    if a != {} {
      var x :| x in a;
      SubsetSize(a - {x}, b - {x});
    }
  }

  /** With truthful, unchanging loads a client that is sent on never meets a server twice, so it is
      sent on fewer times than there are servers. */
  lemma RedirectsEnd(loads: seq<real>, views: seq<seq<Candidate>>, secret: string, path: seq<nat>)
    requires Truthful(loads, views) && SentOn(loads, views, secret, path)
    ensures forall i, j :: 0 <= i < j < |path| ==> path[i] != path[j]
    ensures |path| <= |loads|
  {
    forall i, j | 0 <= i < j < |path| ensures path[i] != path[j] {
      LaterIsLighter(loads, views, secret, path, i, j);
    }
    DistinctSize(path);
    forall x | x in Elements(path) ensures x in Below(|loads|) {
      var k :| 0 <= k < |path| && path[k] == x;
    }
    SubsetSize(Elements(path), Below(|loads|));
  }
}
