/**
 * Spreading a transaction rate and a list of fee payers over nodes that may
 * each refuse: the share of a refusing node goes to those after it, and what
 * the last node refuses goes to one that accepted before.
 */
module Scheduler {

  type Node = string
  type FeePayer = string

  /** One accepted request. */
  datatype Batch = Batch(node: Node, batchIx: nat, tps: real, feePayers: seq<FeePayer>)

  // ----- what was scheduled -----

  ghost function TotalTps(sent: seq<Batch>): (r: real) {
    if sent == [] then 0.0 else TotalTps(sent[..|sent| - 1]) + sent[|sent| - 1].tps
  }

  /** The fee payers of the batches, one batch after the other. */
  ghost function PayersOf(sent: seq<Batch>): (r: seq<FeePayer>) {
    if sent == [] then [] else PayersOf(sent[..|sent| - 1]) + sent[|sent| - 1].feePayers
  }

  ghost function NodesOf(sent: seq<Batch>): (r: seq<Node>) {
    if sent == [] then [] else NodesOf(sent[..|sent| - 1]) + [sent[|sent| - 1].node]
  }

  /** The nodes that accept, in order. */
  function Accepting(nodes: seq<Node>, accepts: nat -> bool): (r: seq<Node>)
    ensures |r| <= |nodes|
  {
    if nodes == [] then []
    else
      var n := |nodes| - 1;
      Accepting(nodes[..n], accepts) + if accepts(n) then [nodes[n]] else []
  }

  /** Nothing is lost: rates and fee payers are either sent or still to be sent. */
  ghost predicate Conserved(tps: real, feePayers: seq<FeePayer>, sent: seq<Batch>, remTps: real, rem: seq<FeePayer>) {
    TotalTps(sent) + remTps == tps && PayersOf(sent) + rem == feePayers
  }

  /** Batches are numbered in order, and none is below the least rate. */
  ghost predicate WellNumbered(sent: seq<Batch>, least: real) {
    forall m :: 0 <= m < |sent| ==> sent[m].batchIx == m && sent[m].tps >= least
  }

  lemma SendConserves(tps: real, feePayers: seq<FeePayer>, sent: seq<Batch>, remTps: real, rem: seq<FeePayer>,
                      b: Batch, k: nat)
    requires Conserved(tps, feePayers, sent, remTps, rem) && k <= |rem| && b.feePayers == rem[..k]
    ensures Conserved(tps, feePayers, sent + [b], remTps - b.tps, rem[k..])
    ensures NodesOf(sent + [b]) == NodesOf(sent) + [b.node]
  {
    assert (sent + [b])[..|sent|] == sent;
    assert rem == rem[..k] + rem[k..];
  }

  // ----- arithmetic of shares -----

  /** What remains is the share of each of n nodes. */
  ghost predicate EvenlyShared(rem: real, share: real, n: int) {
    rem == share * n as real
  }

  ghost predicate EnoughPayers(count: int, per: int, n: int) {
    per * n <= count
  }

  lemma TakeShare(rem: real, share: real, n: nat)
    requires n > 0 && EvenlyShared(rem, share, n)
    ensures EvenlyShared(rem - share, share, n - 1)
  {}

  lemma SpreadShare(rem: real, share: real, n: nat)
    requires n > 1 && EvenlyShared(rem, share, n) && share >= 0.0
    ensures EvenlyShared(rem, rem / (n - 1) as real, n - 1)
    ensures rem / (n - 1) as real >= share
  {
    var m := (n - 1) as real;
    assert rem == share * m + share;
    var q := rem / m;
    assert q * m == rem;
    if q < share { Scale(q, share, m); }
  }

  lemma DivideWhole(rem: real, n: nat)
    requires n > 0
    ensures rem / n as real * n as real == rem
  {}

  lemma ShareIsEnough(tps: real, least: real, n: nat)
    requires n > 0 && n as real * least <= tps
    ensures tps / n as real >= least
  {
    var m := n as real;
    assert tps / m * m == tps;
    if tps / m < least {
      Scale(tps / m, least, m);
    }
  }

  lemma Scale(a: real, b: real, m: real)
    requires a < b && m > 0.0
    ensures a * m < b * m
  {
    assert (b - a) * m > 0.0;
  }

  lemma PayersSuffice(count: nat, n: nat)
    requires n > 0
    ensures 0 <= count / n && EnoughPayers(count, count / n, n)
  {}

  lemma OneFewer(per: nat, n: nat, count: nat)
    requires n > 0 && EnoughPayers(count, per, n)
    ensures per <= count && EnoughPayers(count - per, per, n - 1)
  {
    assert per * n == per * (n - 1) + per;
  }

  // ----- choosing nodes -----

  /** n nodes can each be given the least rate. */
  ghost predicate Fits(n: int, least: real, tps: real) {
    n as real * least <= tps
  }

  /** No node: the rate is below the least one, or there is none. OutOfRange: a negative rate. */
  datatype Selection = Selected(share: real, nodes: seq<Node>) | NoNodes | OutOfRange

  /**
   * As many nodes as the least rate allows, or all of them: each then gets an
   * equal share, at least the least rate. `shuffled` is the random order
   * drawn when not all are needed. For a rate below the least one there is no
   * node to take, and for a negative one the slice of nodes is out of range.
   */
  method SelectNodes(tps: real, minTps: real, nodes: seq<Node>, shuffled: seq<Node>) returns (s: Selection)
    requires 0.0 < minTps && multiset(shuffled) == multiset(nodes)
    ensures s.OutOfRange? <==> tps < 0.0
    ensures s.Selected? <==> nodes != [] && tps >= minTps
    ensures s.Selected? ==> s.share * |s.nodes| as real == tps && s.share >= minTps && s.nodes != []
    ensures s.Selected? ==> multiset(s.nodes) <= multiset(nodes) && Fits(|s.nodes|, minTps, tps)
    ensures s.Selected? ==> |s.nodes| == |nodes| || !Fits(|s.nodes| + 1, minTps, tps)
  {
    hide Fits;
    var nodesMax := (tps / minTps).Floor;
    RatioBounds(tps, minTps, nodesMax);
    if nodesMax >= |nodes| {
      if |nodes| == 0 {
        return NoNodes;
      }
      EqualShares(tps, minTps, |nodes|, nodesMax);
      return Selected(tps / |nodes| as real, nodes);
    }
    if nodesMax < 0 {
      return OutOfRange;
    }
    if nodesMax == 0 {
      return NoNodes;
    }
    EqualShares(tps, minTps, nodesMax, nodesMax);
    SomeOf(nodes, shuffled, nodesMax);
    return Selected(tps / nodesMax as real, shuffled[..nodesMax]);
  }

  lemma EqualShares(tps: real, least: real, n: nat, most: nat)
    requires 0 < n <= most && Fits(most, least, tps) && least > 0.0
    ensures tps / n as real * n as real == tps && tps / n as real >= least && Fits(n, least, tps)
  {
    DivideWhole(tps, n);
    FewerFit(least, n, most, tps);
    ShareIsEnough(tps, least, n);
  }

  lemma SomeOf(nodes: seq<Node>, shuffled: seq<Node>, n: nat)
    requires multiset(shuffled) == multiset(nodes) && n <= |nodes|
    ensures |shuffled| == |nodes| && multiset(shuffled[..n]) <= multiset(nodes)
  {
    assert |shuffled| == |multiset(shuffled)| == |multiset(nodes)| == |nodes|;
    assert shuffled == shuffled[..n] + shuffled[n..];
  }

  lemma RatioBounds(tps: real, least: real, n: int)
    requires 0.0 < least && n == (tps / least).Floor
    ensures Fits(n, least, tps) && !Fits(n + 1, least, tps)
    ensures (n >= 1 <==> tps >= least) && (n < 0 <==> tps < 0.0)
  {
    var q := tps / least;
    assert q * least == tps;
    QuotientBounds(q, tps, least, n);
  }

  lemma QuotientBounds(q: real, tps: real, least: real, n: int)
    requires 0.0 < least && n == q.Floor && q * least == tps
    ensures Fits(n, least, tps) && !Fits(n + 1, least, tps)
    ensures (n >= 1 <==> tps >= least) && (n < 0 <==> tps < 0.0)
  {
    hide Fits;
    SameSide(q, 1.0, least, tps, least);
    SameSide(q, 0.0, least, tps, 0.0);
    FloorSide(q, n);
    ScaleFloor(q, n, least, tps);
  }

  lemma SameSide(q: real, b: real, least: real, ql: real, bl: real)
    requires least > 0.0 && ql == q * least && bl == b * least
    ensures q >= b <==> ql >= bl
  {
    if q < b { Scale(q, b, least); }
    if q > b { Scale(b, q, least); }
  }

  lemma FloorSide(q: real, n: int)
    requires n == q.Floor
    ensures (n >= 1 <==> q >= 1.0) && (n < 0 <==> q < 0.0)
  {}

  lemma ScaleFloor(q: real, n: int, least: real, tps: real)
    requires n == q.Floor && least > 0.0 && tps == q * least
    ensures Fits(n, least, tps) && !Fits(n + 1, least, tps)
  {
    if n as real < q { Scale(n as real, q, least); }
    assert (n + 1) as real == n as real + 1.0;
    Scale(q, (n + 1) as real, least);
  }

  lemma FewerFit(least: real, a: nat, b: nat, tps: real)
    requires a <= b && b as real * least <= tps && least > 0.0
    ensures a as real * least <= tps
  {
    if a < b { Scale(a as real, b as real, least); }
  }

  // ----- the schedule -----

  /** The state between two nodes: `left` nodes are still to be asked. */
  ghost predicate OnCourse(tps: real, least: real, feePayers: seq<FeePayer>, sent: seq<Batch>,
                           share: real, remTps: real, rem: seq<FeePayer>, per: nat, left: nat) {
    && Conserved(tps, feePayers, sent, remTps, rem)
    && WellNumbered(sent, least)
    && share >= least
    && EvenlyShared(remTps, share, left)
    && EnoughPayers(|rem|, per, left)
  }

  lemma SetOff(tps: real, least: real, share: real, feePayers: seq<FeePayer>, per: nat, n: nat)
    requires n > 0 && least <= share && share * n as real == tps && per == |feePayers| / n
    ensures OnCourse(tps, least, feePayers, [], share, tps, feePayers, per, n) && NodesOf([]) == []
  {
    PayersSuffice(|feePayers|, n);
    NothingSent(tps, least, feePayers);
  }

  /** A refusal with nodes still to come: their shares grow, and still add up. */
  lemma Refused(tps: real, least: real, feePayers: seq<FeePayer>, sent: seq<Batch>,
                share: real, remTps: real, rem: seq<FeePayer>, per: nat, left: nat)
    requires OnCourse(tps, least, feePayers, sent, share, remTps, rem, per, left) && left > 1 && least > 0.0
    ensures 0 <= |rem| / (left - 1)
    ensures OnCourse(tps, least, feePayers, sent,
                     remTps / (left - 1) as real, remTps, rem, |rem| / (left - 1), left - 1)
  {
    hide Conserved, WellNumbered, EvenlyShared, EnoughPayers;
    SpreadShare(remTps, share, left);
    PayersSuffice(|rem|, left - 1);
  }

  lemma Taken(tps: real, least: real, feePayers: seq<FeePayer>, sent: seq<Batch>,
              share: real, remTps: real, rem: seq<FeePayer>, per: nat, left: nat, node: Node)
    requires OnCourse(tps, least, feePayers, sent, share, remTps, rem, per, left) && left > 0
    ensures per <= |rem|
    ensures var next := sent + [Batch(node, |sent|, share, rem[..per])];
            && OnCourse(tps, least, feePayers, next, share, remTps - share, rem[per..], per, left - 1)
            && NodesOf(next) == NodesOf(sent) + [node]
  {
    hide Conserved, WellNumbered, NodesOf, EvenlyShared, EnoughPayers;
    OneFewer(per, left, |rem|);
    TakeShare(remTps, share, left);
    var b := Batch(node, |sent|, share, rem[..per]);
    SendConserves(tps, feePayers, sent, remTps, rem, b, per);
    NumberNext(sent, least, b);
  }

  /** The fee payers of the next node are there, whether or not it accepts. */
  lemma SliceInRange(tps: real, least: real, feePayers: seq<FeePayer>, sent: seq<Batch>,
                     share: real, remTps: real, rem: seq<FeePayer>, per: nat, left: nat)
    requires OnCourse(tps, least, feePayers, sent, share, remTps, rem, per, left) && left > 0
    ensures per <= |rem|
  {
    hide Conserved, WellNumbered, EvenlyShared, EnoughPayers;
    OneFewer(per, left, |rem|);
  }

  lemma CourseEnds(tps: real, least: real, feePayers: seq<FeePayer>, sent: seq<Batch>,
                   share: real, remTps: real, rem: seq<FeePayer>, per: nat, left: nat)
    requires OnCourse(tps, least, feePayers, sent, share, remTps, rem, per, left) && left <= 1
    ensures Conserved(tps, feePayers, sent, remTps, rem) && WellNumbered(sent, least) && share >= least
    ensures left == 0 ==> remTps == 0.0
    ensures left == 1 ==> remTps == share
  {}

  // ----- who gets how much -----

  /** The position after the last refusal before i, or 0. */
  function FromRefusal(accepts: nat -> bool, i: nat): (j: nat)
    ensures j <= i
  {
    if i == 0 then 0 else if !accepts(i - 1) then i else FromRefusal(accepts, i - 1)
  }

  /** What a node is offered at position i: an equal part of what was left at the last refusal. */
  ghost predicate OfferAt(tps: real, feePayers: seq<FeePayer>, nodes: seq<Node>, accepts: nat -> bool,
                          sent: seq<Batch>, share: real, per: int, i: nat) {
    i < |nodes| ==>
      var j := FromRefusal(accepts, i);
      var before := |Accepting(nodes[..j], accepts)|;
      && before <= |sent|
      && share == (tps - TotalTps(sent[..before])) / (|nodes| - j) as real
      && per == (|feePayers| - |PayersOf(sent[..before])|) / (|nodes| - j)
  }

  /** The batch of the node accepting at position p: as many fee payers and as much of the rate as offered. */
  ghost predicate SharedAt(tps: real, feePayers: seq<FeePayer>, nodes: seq<Node>, accepts: nat -> bool,
                           sent: seq<Batch>, p: nat) {
    && p < |nodes|
    && var m := |Accepting(nodes[..p], accepts)|;
       && m < |sent| && sent[m].node == nodes[p]
       && OfferAt(tps, feePayers, nodes, accepts, sent[..m], sent[m].tps, |sent[m].feePayers|, p)
  }

  ghost predicate FairlyShared(tps: real, feePayers: seq<FeePayer>, nodes: seq<Node>, accepts: nat -> bool,
                               sent: seq<Batch>, n: nat) {
    forall p: nat :: p < n && accepts(p) ==> SharedAt(tps, feePayers, nodes, accepts, sent, p)
  }

  lemma FirstOffer(tps: real, feePayers: seq<FeePayer>, nodes: seq<Node>, accepts: nat -> bool, share: real)
    requires nodes != [] && share * |nodes| as real == tps
    ensures OfferAt(tps, feePayers, nodes, accepts, [], share, |feePayers| / |nodes|, 0)
  {
    WholeShare(tps, share, |nodes| as real);
  }

  lemma WholeShare(tps: real, share: real, n: real)
    requires n > 0.0 && share * n == tps
    ensures share == tps / n
  {
    var q := tps / n;
    assert q * n == tps;
    if q < share { Scale(q, share, n); }
    if q > share { Scale(share, q, n); }
  }

  lemma OfferAfterRefusal(tps: real, feePayers: seq<FeePayer>, nodes: seq<Node>, accepts: nat -> bool,
                          sent: seq<Batch>, remTps: real, rem: seq<FeePayer>, i: nat)
    requires i + 1 < |nodes| && !accepts(i) && Conserved(tps, feePayers, sent, remTps, rem)
    requires |sent| == |Accepting(nodes[..i], accepts)|
    ensures OfferAt(tps, feePayers, nodes, accepts, sent,
                    remTps / (|nodes| - i - 1) as real, |rem| / (|nodes| - i - 1), i + 1)
  {
    hide TotalTps, PayersOf;
    AcceptingStep(nodes, i, accepts);
    assert sent[..|sent|] == sent;
    assert |feePayers| == |PayersOf(sent)| + |rem|;
  }

  lemma OfferAfterTaken(tps: real, feePayers: seq<FeePayer>, nodes: seq<Node>, accepts: nat -> bool,
                        sent: seq<Batch>, share: real, per: int, i: nat, b: Batch)
    requires OfferAt(tps, feePayers, nodes, accepts, sent, share, per, i) && i < |nodes| && accepts(i)
    ensures OfferAt(tps, feePayers, nodes, accepts, sent + [b], share, per, i + 1)
  {
    hide TotalTps, PayersOf, Accepting;
    var before := |Accepting(nodes[..FromRefusal(accepts, i)], accepts)|;
    assert (sent + [b])[..before] == sent[..before];
  }

  lemma TakenIsShared(tps: real, feePayers: seq<FeePayer>, nodes: seq<Node>, accepts: nat -> bool,
                      sent: seq<Batch>, i: nat, b: Batch)
    requires OfferAt(tps, feePayers, nodes, accepts, sent, b.tps, |b.feePayers|, i)
    requires i < |nodes| && accepts(i) && b.node == nodes[i] && |sent| == |Accepting(nodes[..i], accepts)|
    requires FairlyShared(tps, feePayers, nodes, accepts, sent, i)
    ensures FairlyShared(tps, feePayers, nodes, accepts, sent + [b], i + 1)
  {
    hide OfferAt, Accepting;
    assert (sent + [b])[..|sent|] == sent;
    SharesStay(tps, feePayers, nodes, accepts, sent, i, b);
  }

  lemma SharesStay(tps: real, feePayers: seq<FeePayer>, nodes: seq<Node>, accepts: nat -> bool,
                   sent: seq<Batch>, i: nat, b: Batch)
    requires FairlyShared(tps, feePayers, nodes, accepts, sent, i)
    ensures FairlyShared(tps, feePayers, nodes, accepts, sent + [b], i)
  {
    hide OfferAt, Accepting;
    forall p: nat | p < i && accepts(p) ensures SharedAt(tps, feePayers, nodes, accepts, sent + [b], p) {
      var m := |Accepting(nodes[..p], accepts)|;
      assert SharedAt(tps, feePayers, nodes, accepts, sent, p);
      assert (sent + [b])[..m] == sent[..m];
    }
  }

  lemma {:induction false} NoRefusal(accepts: nat -> bool, i: nat)
    requires forall p: nat :: p < i ==> accepts(p)
    ensures FromRefusal(accepts, i) == 0
  {
    if i > 0 { NoRefusal(accepts, i - 1); }
  }

  /** When every node accepts, each gets an equal part of the rate and of the fee payers. */
  lemma AllAccept(tps: real, feePayers: seq<FeePayer>, nodes: seq<Node>, accepts: nat -> bool,
                  sent: seq<Batch>, p: nat)
    requires p < |nodes| && forall q: nat :: q < |nodes| ==> accepts(q)
    requires FairlyShared(tps, feePayers, nodes, accepts, sent, |nodes|)
    ensures p < |sent| && sent[p].node == nodes[p]
    ensures sent[p].tps == tps / |nodes| as real && |sent[p].feePayers| == |feePayers| / |nodes|
  {
    hide OfferAt, Accepting, FromRefusal;
    assert SharedAt(tps, feePayers, nodes, accepts, sent, p);
    NoRefusal(accepts, p);
    EveryNodeAccepts(nodes[..p], accepts);
    UnrefusedOffer(tps, feePayers, nodes, accepts, sent[..p], sent[p].tps, |sent[p].feePayers|, p);
  }

  lemma UnrefusedOffer(tps: real, feePayers: seq<FeePayer>, nodes: seq<Node>, accepts: nat -> bool,
                       sent: seq<Batch>, share: real, per: int, i: nat)
    requires OfferAt(tps, feePayers, nodes, accepts, sent, share, per, i) && i < |nodes|
    requires FromRefusal(accepts, i) == 0
    ensures share == tps / |nodes| as real && per == |feePayers| / |nodes|
  {
    hide TotalTps, PayersOf, Accepting, FromRefusal;
    AcceptingNone(nodes, accepts);
    NothingYet(sent);
    assert |nodes| - 0 == |nodes|;
  }

  lemma NothingYet(sent: seq<Batch>)
    ensures TotalTps(sent[..0]) == 0.0 && PayersOf(sent[..0]) == []
  {}

  lemma {:induction false} EveryNodeAccepts(nodes: seq<Node>, accepts: nat -> bool)
    requires forall q: nat :: q < |nodes| ==> accepts(q)
    ensures |Accepting(nodes, accepts)| == |nodes|
  {
    if nodes != [] { EveryNodeAccepts(nodes[..|nodes| - 1], accepts); }
  }

  /**
   * `accepts(i)` says whether the i-th node takes its share, `again(k)`
   * whether the k-th node that took one takes a second batch.
   *
   * The batches' fee payers are consecutive segments of the input from its
   * start, and every node that accepts gets an equal part, rounded down, of
   * the fee payers and of the rate that were left at the last refusal before
   * it. Without an error the rates add up to the requested one; an error
   * means that a share no smaller than the least rate found no taker.
   */
  method Schedule(tps: real, least: real, share: real, nodes: seq<Node>, feePayers: seq<FeePayer>,
                  accepts: nat -> bool, again: nat -> bool) returns (ok: bool, sent: seq<Batch>)
    requires nodes != [] && 0.0 < least <= share && share * |nodes| as real == tps
    ensures ok <==> accepts(|nodes| - 1) || exists k: nat :: k < |Accepting(nodes, accepts)| && again(k)
    ensures ok ==> TotalTps(sent) == tps
    ensures !ok ==> tps - TotalTps(sent) >= least
    ensures accepts(|nodes| - 1) || !ok ==> NodesOf(sent) == Accepting(nodes, accepts)
    ensures ok && !accepts(|nodes| - 1) ==> SentTwice(Accepting(nodes, accepts), again, NodesOf(sent))
    ensures PayersOf(sent) <= feePayers
    ensures ok && !accepts(|nodes| - 1) ==> PayersOf(sent) == feePayers
    ensures |sent| <= |nodes|
    ensures WellNumbered(sent, least)
    ensures FairlyShared(tps, feePayers, nodes, accepts, sent, |nodes|)
  {
    hide OnCourse, Conserved, WellNumbered, TotalTps, PayersOf, NodesOf, Accepting, OfferAt, SharedAt, FairlyShared;
    var tpsNow, remTps, rem := share, tps, feePayers;
    PayersSuffice(|feePayers|, |nodes|);
    var per: nat := |feePayers| / |nodes|;
    sent := [];
    SetOff(tps, least, share, feePayers, per, |nodes|);
    AcceptingNone(nodes, accepts);
    FirstOffer(tps, feePayers, nodes, accepts, share);
    NothingShared(tps, feePayers, nodes, accepts);
    var lastOk := true;
    for i := 0 to |nodes|
      invariant OnCourse(tps, least, feePayers, sent, tpsNow, remTps, rem, per,
                         if i == |nodes| && !lastOk then 1 else |nodes| - i)
      invariant NodesOf(sent) == Accepting(nodes[..i], accepts) && |sent| == |NodesOf(sent)|
      invariant |sent| <= i && (!lastOk ==> |sent| < i)
      invariant i > 0 ==> lastOk == accepts(i - 1)
      invariant i == 0 ==> lastOk
      invariant i < |nodes| ==> OfferAt(tps, feePayers, nodes, accepts, sent, tpsNow, per, i)
      invariant FairlyShared(tps, feePayers, nodes, accepts, sent, i)
    {
      var left := |nodes| - i;
      AcceptingStep(nodes, i, accepts);
      SliceInRange(tps, least, feePayers, sent, tpsNow, remTps, rem, per, left);
      var payers := rem[..per];
      lastOk := accepts(i);
      if !lastOk {
        RefusalIsFair(tps, feePayers, nodes, accepts, sent, i);
        if left - 1 > 0 {
          CourseConserves(tps, least, feePayers, sent, tpsNow, remTps, rem, per, left);
          OfferAfterRefusal(tps, feePayers, nodes, accepts, sent, remTps, rem, i);
          Refused(tps, least, feePayers, sent, tpsNow, remTps, rem, per, left);
          tpsNow := remTps / (left - 1) as real;
          per := |rem| / (left - 1);
        }
      } else {
        Taken(tps, least, feePayers, sent, tpsNow, remTps, rem, per, left, nodes[i]);
        var b := Batch(nodes[i], |sent|, tpsNow, payers);
        TakenIsShared(tps, feePayers, nodes, accepts, sent, i, b);
        OfferAfterTaken(tps, feePayers, nodes, accepts, sent, tpsNow, per, i, b);
        sent := sent + [b];
        rem := rem[per..];
        remTps := remTps - tpsNow;
      }
    }
    CourseEnds(tps, least, feePayers, sent, tpsNow, remTps, rem, per, if lastOk then 0 else 1);
    assert nodes[..|nodes|] == nodes;
    if lastOk {
      SentPart(tps, feePayers, sent, remTps, rem);
      return true, sent;
    }
    ghost var first := sent;
    ok, sent := SecondBatch(tps, least, feePayers, sent, tpsNow, remTps, rem, again);
    if ok { SharesStay(tps, feePayers, nodes, accepts, first, |nodes|, sent[|first|]); }
  }

  lemma NothingShared(tps: real, feePayers: seq<FeePayer>, nodes: seq<Node>, accepts: nat -> bool)
    ensures FairlyShared(tps, feePayers, nodes, accepts, [], 0)
  {}

  lemma RefusalIsFair(tps: real, feePayers: seq<FeePayer>, nodes: seq<Node>, accepts: nat -> bool,
                      sent: seq<Batch>, i: nat)
    requires FairlyShared(tps, feePayers, nodes, accepts, sent, i) && !accepts(i)
    ensures FairlyShared(tps, feePayers, nodes, accepts, sent, i + 1)
  {}

  lemma CourseConserves(tps: real, least: real, feePayers: seq<FeePayer>, sent: seq<Batch>,
                        share: real, remTps: real, rem: seq<FeePayer>, per: nat, left: nat)
    requires OnCourse(tps, least, feePayers, sent, share, remTps, rem, per, left)
    ensures Conserved(tps, feePayers, sent, remTps, rem)
  {}

  /** The k-th node was the first to take a second batch. */
  ghost predicate TakesAgain(accepting: seq<Node>, again: nat -> bool, asked: seq<Node>, k: nat) {
    k < |accepting| && again(k) && asked == accepting + [accepting[k]] && forall m: nat :: m < k ==> !again(m)
  }

  ghost predicate SentTwice(accepting: seq<Node>, again: nat -> bool, asked: seq<Node>) {
    exists k: nat :: TakesAgain(accepting, again, asked, k)
  }

  lemma {:induction false} NodeAt(sent: seq<Batch>, k: nat)
    requires k < |sent|
    ensures |NodesOf(sent)| == |sent| && NodesOf(sent)[k] == sent[k].node
  {
    var n := |sent| - 1;
    if k < n {
      NodeAt(sent[..n], k);
    } else if n > 0 {
      NodeAt(sent[..n], 0);
    }
  }

  /** The remaining share is offered to each node that accepted, until one takes it. */
  method SecondBatch(tps: real, least: real, feePayers: seq<FeePayer>, first: seq<Batch>,
                     share: real, remTps: real, rem: seq<FeePayer>, again: nat -> bool)
    returns (ok: bool, sent: seq<Batch>)
    requires Conserved(tps, feePayers, first, remTps, rem) && WellNumbered(first, least)
    requires 0.0 < least <= share && remTps == share
    ensures ok <==> exists k: nat :: k < |first| && again(k)
    ensures ok ==> TotalTps(sent) == tps && PayersOf(sent) == feePayers && |sent| == |first| + 1
    ensures ok ==> SentTwice(NodesOf(first), again, NodesOf(sent)) && sent == first + [sent[|first|]]
    ensures !ok ==> sent == first && tps - TotalTps(sent) >= least && PayersOf(sent) <= feePayers
    ensures WellNumbered(sent, least)
  {
    hide WellNumbered, TotalTps, PayersOf, NodesOf;
    for k := 0 to |first|
      invariant forall m: nat :: m < k ==> !again(m)
    {
      if again(k) {
        var b := Batch(first[k].node, |first|, share, rem);
        assert rem == rem[..|rem|];
        SendConserves(tps, feePayers, first, remTps, rem, b, |rem|);
        NumberNext(first, least, b);
        SentPart(tps, feePayers, first + [b], remTps - share, rem[|rem|..]);
        NodeAt(first, k);
        assert TakesAgain(NodesOf(first), again, NodesOf(first + [b]), k);
        return true, first + [b];
      }
    }
    SentPart(tps, feePayers, first, remTps, rem);
    return false, first;
  }

  lemma NothingSent(tps: real, least: real, feePayers: seq<FeePayer>)
    ensures Conserved(tps, feePayers, [], tps, feePayers) && WellNumbered([], least) && NodesOf([]) == []
  {}

  lemma NumberNext(sent: seq<Batch>, least: real, b: Batch)
    requires WellNumbered(sent, least) && b.batchIx == |sent| && b.tps >= least
    ensures WellNumbered(sent + [b], least)
  {}

  lemma AcceptingNone(nodes: seq<Node>, accepts: nat -> bool)
    ensures Accepting(nodes[..0], accepts) == []
  {}

  lemma AcceptingStep(nodes: seq<Node>, i: nat, accepts: nat -> bool)
    requires i < |nodes|
    ensures Accepting(nodes[..i + 1], accepts) == Accepting(nodes[..i], accepts) + if accepts(i) then [nodes[i]] else []
  {
    assert nodes[..i + 1][..i] == nodes[..i];
  }

  lemma SentPart(tps: real, feePayers: seq<FeePayer>, sent: seq<Batch>, remTps: real, rem: seq<FeePayer>)
    requires Conserved(tps, feePayers, sent, remTps, rem)
    ensures PayersOf(sent) <= feePayers && (rem == [] ==> PayersOf(sent) == feePayers)
    ensures TotalTps(sent) == tps - remTps
  {}

  /** How scheduling ends; without a node the fee payers are divided by zero. */
  datatype Outcome = Scheduled | Failed | Panicked

  /** What is promised of the batches sent to the selected nodes. */
  ghost predicate Kept(out: Outcome, tps: real, minTps: real, selected: seq<Node>, feePayers: seq<FeePayer>,
                       accepts: nat -> bool, again: nat -> bool, sent: seq<Batch>) {
    && selected != [] && |sent| <= |selected|
    && (out.Scheduled? <==>
          accepts(|selected| - 1) || exists k: nat :: k < |Accepting(selected, accepts)| && again(k))
    && (out.Scheduled? ==> TotalTps(sent) == tps)
    && (out.Failed? ==> tps - TotalTps(sent) >= minTps)
    && PayersOf(sent) <= feePayers && WellNumbered(sent, minTps)
    && FairlyShared(tps, feePayers, selected, accepts, sent, |selected|)
    && (if accepts(|selected| - 1) || out.Failed? then NodesOf(sent) == Accepting(selected, accepts)
        else SentTwice(Accepting(selected, accepts), again, NodesOf(sent)) && PayersOf(sent) == feePayers)
  }

  /** As many of the nodes as the least rate allows, or all. */
  ghost predicate WellSelected(tps: real, minTps: real, nodes: seq<Node>, selected: seq<Node>) {
    && multiset(selected) <= multiset(nodes) && Fits(|selected|, minTps, tps)
    && (|selected| == |nodes| || !Fits(|selected| + 1, minTps, tps))
  }

  method SchedulePayments(tps: real, minTps: real, nodes: seq<Node>, shuffled: seq<Node>, feePayers: seq<FeePayer>,
                          accepts: nat -> bool, again: nat -> bool)
    returns (out: Outcome, sent: seq<Batch>, ghost selected: seq<Node>)
    requires 0.0 < minTps && multiset(shuffled) == multiset(nodes)
    ensures out.Panicked? <==> nodes == [] || tps < minTps
    ensures out.Panicked? ==> sent == []
    ensures !out.Panicked? ==> WellSelected(tps, minTps, nodes, selected)
    ensures !out.Panicked? ==> Kept(out, tps, minTps, selected, feePayers, accepts, again, sent)
  {
    hide Fits, FairlyShared, WellNumbered, TotalTps, PayersOf, NodesOf, Accepting, SentTwice;
    var s := SelectNodes(tps, minTps, nodes, shuffled);
    if !s.Selected? {
      return Panicked, [], [];
    }
    selected := s.nodes;
    var ok;
    ok, sent := Schedule(tps, minTps, s.share, s.nodes, feePayers, accepts, again);
    out := if ok then Scheduled else Failed;
  }

  /** The same schedule, refused outright when neither parameter is given. */
  method SendZkappCommands(zkappsToDeploy: int, gap: int, tps: real, minTps: real, nodes: seq<Node>,
                           shuffled: seq<Node>,
                           feePayers: seq<FeePayer>, accepts: nat -> bool, again: nat -> bool)
    returns (out: Outcome, sent: seq<Batch>, ghost selected: seq<Node>)
    requires 0.0 < minTps && multiset(shuffled) == multiset(nodes)
    ensures zkappsToDeploy == 0 && gap == 0 ==> out.Failed? && sent == []
    ensures out.Panicked? <==> !(zkappsToDeploy == 0 && gap == 0) && (nodes == [] || tps < minTps)
    ensures !out.Panicked? && !(zkappsToDeploy == 0 && gap == 0) ==>
      WellSelected(tps, minTps, nodes, selected) && Kept(out, tps, minTps, selected, feePayers, accepts, again, sent)
  {
    if zkappsToDeploy == 0 && gap == 0 {
      return Failed, [], [];
    }
    out, sent, selected := SchedulePayments(tps, minTps, nodes, shuffled, feePayers, accepts, again);
  }
}
