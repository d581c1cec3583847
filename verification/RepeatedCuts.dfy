/** A trip cut after every reply: what its frozen pieces and its last answer make together. */
module RepeatedCuts {
  import opened Numbers
  import opened TrellisGraph
  import opened Viterbi
  import opened Convergence
  import opened ConvergenceCut
  import opened Observations
  import opened Weighing
  import opened Trips
  import opened Matching
  import TripRuns
  import opened Continuation

  /** A reply: the trellis had it never been cut, the layers dropped after it, and what it answered for those. */
  datatype Round = Round(whole: Trellis, cut: nat, piece: seq<nat>)

  /** How many layers the cuts have dropped. */
  ghost function Offset(rounds: seq<Round>): nat {
    if rounds == [] then 0 else Offset(rounds[..|rounds| - 1]) + rounds[|rounds| - 1].cut
  }

  /** What the replies have frozen. */
  ghost function Frozen(rounds: seq<Round>): seq<nat> {
    if rounds == [] then [] else Frozen(rounds[..|rounds| - 1]) + rounds[|rounds| - 1].piece
  }

  /** What a trellis answers once `off` leading layers are dropped, if it then solves. */
  ghost function AnswerFrom(t: Trellis, off: nat): Option<seq<nat>> {
    if t.Valid() && off < t.Layers() && t.From(off).Valid() && Solvable(t.From(off)) then Some(Answer(t.From(off)).nodes)
    else None
  }

  /** So cut, its routes have fused at layer `k`, and cutting there has settled. */
  ghost predicate CutAt(t: Trellis, off: nat, k: nat) {
    && AnswerFrom(t, off).Some? && off + k < t.Layers()
    && FusedAt(t.From(off), k) && CutHasSettled(t.From(off), k)
  }

  /** A growth of the trellis as it was at the last reply. */
  ghost predicate GrownSince(u: Trellis, rounds: seq<Round>) {
    rounds == [] || Extends(u, rounds[|rounds| - 1].whole)
  }

  /** A reply answers what the cuts before it have left; then the trip is cut, and what that drops is frozen as answered. */
  ghost predicate Replied(before: seq<Round>, last: Round) {
    && GrownSince(last.whole, before) && CutAt(last.whole, Offset(before), last.cut)
    && last.piece == AnswerFrom(last.whole, Offset(before)).value[..last.cut]
  }

  /** A trip that grows from reply to reply and is cut after each, every cut settled. */
  ghost predicate Settles(rounds: seq<Round>) {
    rounds == [] || (Settles(rounds[..|rounds| - 1]) && Replied(rounds[..|rounds| - 1], rounds[|rounds| - 1]))
  }

  lemma GrownOn(u: Trellis, t: Trellis, rounds: seq<Round>)
    requires Extends(u, t) && GrownSince(t, rounds)
    ensures GrownSince(u, rounds)
  {
  }

  lemma CutTwice(t: Trellis, a: nat, b: nat, c: nat)
    requires t.Valid() && c == a + b < t.Layers() && t.From(a).Valid()
    ensures t.From(a).From(b) == t.From(c)
  {
    var s := t.From(a);
    StartOfSuffix(t.widths, a, b);
    StartMonotone(t.widths, a, c);
    StartMonotone(t.widths, c, |t.widths|);
    assert s.From(b).widths == t.From(c).widths;
    assert s.From(b).nodes == t.From(c).nodes;
  }

  /** One more reply: its frozen piece, and what is left, of any later growth's answer. */
  lemma OneReply(u: Trellis, t: Trellis, off: nat, k: nat, next: nat)
    requires t.Valid() && u.Valid() && Extends(u, t) && Solvable(u) && off + k < t.Layers() && next == off + k
    requires t.From(off).Valid() && Solvable(t.From(off)) && FusedAt(t.From(off), k) && CutHasSettled(t.From(off), k)
    ensures u.From(off).Valid() && Solvable(u.From(off)) && u.From(next).Valid() && Solvable(u.From(next))
    ensures Answer(u.From(next)).nodes == Answer(u.From(off)).nodes[k..]
    ensures Answer(t.From(off)).nodes[..k] == Answer(u.From(off)).nodes[..k]
  {
    CutStaysSolvable(u, off);
    CutStaysSolvable(u, next);
    CutOfExtension(u, t, off);
    CutTwice(u, off, k, next);
    SettledCutIsSeamless(u.From(off), t.From(off), k);
    SamePrefix(u.From(off), t.From(off), k);
  }

  lemma SamePrefix(u: Trellis, t: Trellis, k: nat)
    requires t.Valid() && u.Valid() && Extends(u, t) && Solvable(t) && Solvable(u) && k < t.Layers() && FusedAt(t, k)
    ensures Answer(t).nodes[..k] == Answer(u).nodes[..k]
  {
    GrownRouteFollows(u, t, k, FinalNode(u), FinalNode(t));
    assert Answer(t).nodes[..k] == Answer(t).nodes[..k + 1][..k];
    assert Answer(u).nodes[..k] == Answer(u).nodes[..k + 1][..k];
  }

  /** The pieces and what is left of one growth's answer, before and after the reply. */
  lemma ReplyContinues(u: Trellis, t: Trellis, off: nat, k: nat, next: nat) returns (rest: seq<nat>)
    requires u.Valid() && Extends(u, t) && Solvable(u) && CutAt(t, off, k) && next == off + k
    ensures AnswerFrom(u, off).Some? && rest == AnswerFrom(u, off).value && k <= |rest|
    ensures AnswerFrom(u, next).Some? && AnswerFrom(u, next).value == rest[k..]
    ensures AnswerFrom(t, off).value[..k] == rest[..k]
  {
    OneReply(u, t, off, k, next);
    rest := Answer(u.From(off)).nodes;
  }

  /** What the replies have frozen, joined to the answer of what is left, is the answer of the whole. */
  ghost predicate Joined(u: Trellis, off: nat, frozen: seq<nat>, whole: seq<nat>) {
    AnswerFrom(u, off).Some? && frozen + AnswerFrom(u, off).value == whole
  }

  lemma {:induction false} FrozenIsAPrefix(rounds: seq<Round>, u: Trellis, off: nat, frozen: seq<nat>, whole: seq<nat>)
    requires Settles(rounds) && u.Valid() && Solvable(u) && GrownSince(u, rounds)
    requires off == Offset(rounds) && frozen == Frozen(rounds) && whole == Answer(u).nodes
    ensures Joined(u, off, frozen, whole)
    decreases |rounds|
  {
    if rounds == [] {
      NothingFrozen(u, off, frozen, whole);
    } else {
      var before, last := rounds[..|rounds| - 1], rounds[|rounds| - 1];
      GrownOn(u, last.whole, before);
      FrozenIsAPrefix(before, u, Offset(before), Frozen(before), whole);
      ReplyFreezes(last, u, Offset(before), off, Frozen(before), whole);
      assert frozen == Frozen(before) + last.piece;
    }
  }

  lemma NothingFrozen(u: Trellis, off: nat, frozen: seq<nat>, whole: seq<nat>)
    requires u.Valid() && Solvable(u) && off == 0 && frozen == [] && whole == Answer(u).nodes
    ensures Joined(u, off, frozen, whole)
  {
    assert u.From(off) == u;
  }

  lemma ReplyFreezes(last: Round, u: Trellis, off: nat, next: nat, frozen: seq<nat>, whole: seq<nat>)
    requires CutAt(last.whole, off, last.cut) && last.piece == AnswerFrom(last.whole, off).value[..last.cut]
    requires u.Valid() && Solvable(u) && Extends(u, last.whole) && next == off + last.cut
    requires Joined(u, off, frozen, whole)
    ensures Joined(u, next, frozen + last.piece, whole)
  {
    var rest := ReplyContinues(u, last.whole, off, last.cut, next);
    Rejoins(frozen, rest, last.cut);
  }

  lemma Rejoins(frozen: seq<nat>, rest: seq<nat>, k: nat)
    requires k <= |rest|
    ensures frozen + rest == frozen + rest[..k] + rest[k..]
  {
  }

  /**
   * However often a trip has been cut, if every cut had settled, then for whatever it has grown to since: the
   * pieces frozen by the replies, joined to the answer of what is left, are the answer of the trellis that
   * was never cut, which is its cheapest path.
   */
  lemma RepeatedCutsAreSeamless(rounds: seq<Round>, u: Trellis)
    requires Settles(rounds) && u.Valid() && Solvable(u) && GrownSince(u, rounds)
    ensures AnswerFrom(u, Offset(rounds)).Some?
    ensures Champion(u, Frozen(rounds) + AnswerFrom(u, Offset(rounds)).value)
  {
    FrozenIsAPrefix(rounds, u, Offset(rounds), Frozen(rounds), Answer(u).nodes);
    AnswerIsChampion(u);
  }

  // ----- The rounds of the service -----

  lemma SuffixIsWeighed(w: World, os: seq<Origin>, t: Trellis, off: nat)
    requires AllAnchored(w, os) && Weighed(w, os, t) && t.Valid() && off < |os|
    ensures Weighed(w, os[off..], t.From(off))
  {
    TripRuns.TailIsGrown(w, os, t, off);
    var s := t.From(off);
    forall k {:trigger s.transitions[k]} | 0 <= k < |s.transitions|
      ensures s.transitions[k] == BoundaryOf(w, os[off..], k)
    {
      assert s.transitions[k] == t.transitions[off + k];
      assert os[off..][k] == os[off + k] && os[off..][k + 1] == os[off + k + 1];
    }
  }

  /**
   * The service's own rounds are of this kind. A solved trip of its network that holds what `off` dropped
   * layers leave of the observations so far holds exactly that much of their one weighed trellis, answers
   * as it does, and is cut where its routes have fused.
   */
  lemma ServedRound(w: World, s: TripValue, os: seq<Origin>, off: nat, t: Trellis)
    requires Sound(w, s) && s.state.Solved? && off < |os| && s.origins == os[off..]
    requires AllAnchored(w, os) && Weighed(w, os, t) && t.Valid()
    ensures s.state.trellis == t.From(off) && AnswerFrom(t, off).Some? && AnswerFrom(t, off).value == s.state.path.nodes
    ensures match ConvergencePoint(s.state.trellis)
            case None => CutBehind(s) == s
            case Some(c) => c < |s.origins| && FusedAt(t.From(off), c) && CutBehind(s).origins == os[off + c..]
  {
    SuffixIsWeighed(w, os, t, off);
    WeighedIsUnique(w, s.origins, t.From(off), s.state.trellis);
    CutDrops(s, os, off);
  }

  lemma CutDrops(s: TripValue, os: seq<Origin>, off: nat)
    requires s.Intact() && s.state.Solved? && off <= |os| && s.origins == os[off..]
    ensures match ConvergencePoint(s.state.trellis)
            case None => CutBehind(s) == s
            case Some(c) => c < |s.origins| && CutBehind(s).origins == os[off + c..]
  {
    var at := ConvergencePoint(s.state.trellis);
    if at.Some? {
      assert os[off..][at.value..] == os[off + at.value..];
    }
  }
}
