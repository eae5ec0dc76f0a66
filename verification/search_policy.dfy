/** The bookkeeping the two search players share: how the target depth is chosen and
    deepened, the predefined opening replies, and the first-strictly-best choice of a
    move from its scores. */
module SearchPolicy {
  import opened Wrappers
  import opened Floats
  import opened Assets
  import opened GameState
  import opened BasePlayer

  const InitDynamicDepth: int := 5
  const InitCounter: nat := 0
  const Threshold: int := 18
  const Step: int := 3
  const Base: nat := 2
  const TimedDepth: int := 4

  /** The constructor's target_depth argument: 'dynamic', 'timed' or a fixed depth. */
  datatype DepthOption = Dynamic | Timed | Static(depth: int)

  /** A search player's settings and counters.  `halfMoves` is twice moves_made, so
      that the half-move steps of the game evaluator stay integral. */
  datatype Searcher = Searcher(
    targetDepth: int, dynamic: bool, timed: bool, randomness: bool, halfMoves: int, counter: nat)

  function Pow(b: nat, e: nat): (r: nat)
    ensures r >= 1 || b == 0
  {
    if e == 0 then 1 else b * Pow(b, e - 1)
  }

  /** The dynamic depth schedule: after `counter` deepenings the depth has grown by
      1 + 2 + ... + 2^(counter - 1) over its initial value. */
  predicate OnSchedule(p: Searcher, initDepth: int)
  {
    p.dynamic ==> !p.timed && p.targetDepth == initDepth + Pow(Base, p.counter) - 1
  }

  /** __init__: the depth option, INIT_COUNTER, and moves_made = -1. */
  function NewSearcher(option: DepthOption, randomness: bool, initDynamic: int): (p: Searcher)
    ensures OnSchedule(p, initDynamic)
    ensures p.dynamic <==> option.Dynamic?
    ensures p.timed <==> option.Timed?
    ensures option.Static? ==> p.targetDepth == option.depth
    ensures option.Timed? ==> p.targetDepth == TimedDepth
    ensures p.halfMoves == -2 && p.counter == 0 && p.randomness == randomness
  {
    match option
    case Dynamic => Searcher(initDynamic, true, false, randomness, -2, InitCounter)
    case Timed => Searcher(TimedDepth, false, true, randomness, -2, InitCounter)
    case Static(d) => Searcher(d, false, false, randomness, -2, InitCounter)
  }

  /** The players' __init__ (MiniMaxPlayer and ExpectiMaxPlayer alike): dynamic play
      starts at INIT_DYNAMIC_DEPTH = 5 and deepens on that schedule. */
  function NewPlayer(option: DepthOption, randomness: bool): (p: Searcher)
    ensures option.Dynamic? ==> p.targetDepth == 5 && p.dynamic && !p.timed
    ensures option.Timed? ==> p.targetDepth == 4 && p.timed && !p.dynamic
    ensures option.Static? ==> p.targetDepth == option.depth && !p.timed && !p.dynamic
    ensures OnSchedule(p, 5)
    ensures p.halfMoves == -2 && p.counter == 0 && p.randomness == randomness
  {
    NewSearcher(option, randomness, InitDynamicDepth)
  }

  /** moves_made += 1 at the start of make_move. */
  function CountMove(p: Searcher): (r: Searcher)
  {
    p.(halfMoves := p.halfMoves + 2)
  }

  /** moves_made += 0.5 when the game evaluator borrows the player. */
  function CountEvaluation(p: Searcher): (r: Searcher)
  {
    p.(halfMoves := p.halfMoves + 1)
  }

  /** The deepening test: past THRESHOLD moves, on every STEP-th move. A half-move count
      is never a multiple of STEP. */
  predicate DeepeningDue(p: Searcher)
  {
    !p.timed && p.dynamic && p.halfMoves > 2 * Threshold && p.halfMoves % (2 * Step) == 0
  }

  /** update_target_depth (the timed mode's clock reset is not modelled). */
  function UpdateTargetDepth(p: Searcher): (r: Searcher)
    ensures r.targetDepth >= p.targetDepth
    ensures r.targetDepth > p.targetDepth <==> DeepeningDue(p)
    ensures !DeepeningDue(p) ==> r == p
    ensures r.halfMoves == p.halfMoves && r.dynamic == p.dynamic && r.timed == p.timed
    ensures forall init :: OnSchedule(p, init) ==> OnSchedule(r, init)
  {
    if DeepeningDue(p) then
      p.(targetDepth := p.targetDepth + Pow(Base, p.counter), counter := p.counter + 1)
    else p
  }

  /** A fixed or timed depth never changes, whatever the move count. */
  lemma FixedDepthStays(p: Searcher)
    requires !p.dynamic
    ensures UpdateTargetDepth(CountMove(p)).targetDepth == p.targetDepth
    ensures UpdateTargetDepth(CountEvaluation(p)).targetDepth == p.targetDepth
  {
  }

  /** Counting only moves, the dynamic depth first deepens at the 21st move of the
      player (moves_made = 21) and then on every third move. */
  lemma DeepeningMoves(p: Searcher, movesMade: int)
    requires p.dynamic && !p.timed && p.halfMoves == 2 * movesMade
    ensures DeepeningDue(p) <==> movesMade > Threshold && movesMade % Step == 0
  {
  }

  /** get_premove: the opening move (the centre, or a random pair when randomness is on)
      for X's first move, then the mirror reply (p, p) whenever the board the opponent
      sent us to is still empty. */
  function Premove(p: Searcher, st: State, prev: Option<int>, maximizing: bool, random: Move): (r: Option<Move>)
    requires WellFormed(st) && (prev.Some? ==> 0 <= prev.value < 10)
    requires IsCell(random.0) && IsCell(random.1)
    ensures maximizing && p.halfMoves == 0 ==> r == Some(if p.randomness then random else (5, 5))
    ensures !(maximizing && p.halfMoves == 0) ==>
      (r.Some? <==> prev.Some? && prev.value != 0 && CountChar(st[prev.value].display, '-') == 9)
    ensures r.Some? && !(maximizing && p.halfMoves == 0) ==> r.value == (prev.value, prev.value)
    ensures r.Some? ==> IsCell(r.value.0) && IsCell(r.value.1)
  {
    if maximizing && p.halfMoves == 0 then Some(if p.randomness then random else (5, 5))
    else if prev.Some? && prev.value != 0 && CountChar(st[prev.value].display, '-') == 9 then
      Some((prev.value, prev.value))
    else None
  }

  /** A display of ten characters that starts with '/' and counts nine '-' is blank. */
  lemma {:induction false} NineBlanksIsEmpty(d: string)
    requires |d| == 10 && d[0] == '/' && CountChar(d, '-') == 9
    ensures forall i :: 1 <= i < 10 ==> d[i] == '-'
  {
    assert CountChar(d, '-') == CountChar(d[1..], '-');
    AllCounted(d[1..], '-');
    assert forall i :: 1 <= i < 10 ==> d[i] == d[1..][i - 1];
  }

  lemma {:induction false} AllCounted(d: string, c: char)
    requires CountChar(d, c) == |d|
    ensures forall i :: 0 <= i < |d| ==> d[i] == c
  {
    if d != [] {
      AllCounted(d[1..], c);
      assert forall i :: 1 <= i < |d| ==> d[i] == d[1..][i - 1];
    }
  }

  /** The mirror reply is a legal move: an empty board has all its cells open, so the
      tracker still lists the cell with the board's own number. */
  lemma MirrorReplyIsLegal(p: Searcher, t: Tracker, st: State, prev: Option<int>, maximizing: bool, random: Move)
    requires TrackerAgrees(t, st) && (prev.Some? ==> 0 <= prev.value < 10)
    requires IsCell(random.0) && IsCell(random.1)
    requires !(maximizing && p.halfMoves == 0) && Premove(p, st, prev, maximizing, random).Some?
    requires st[0].display[prev.value] == '-'
    ensures Premove(p, st, prev, maximizing, random).value in CurrentLegalMoves(t, prev)
  {
    var b := prev.value;
    NineBlanksIsEmpty(st[b].display);
    assert b in t[b];
    var k :| 0 <= k < |t[b]| && t[b][k] == b;
    assert CurrentLegalMoves(t, prev)[k] == (b, b);
  }

  /** The side to move is maximizing for X. */
  function SignFor(maximizing: bool): (r: Sign)
  {
    if maximizing then X else O
  }

  /** `score` would replace `best` in make_move's scan: strictly greater for the
      maximizing side, strictly smaller for the minimizing side. */
  predicate Better(score: Float, best: Float, maximizing: bool)
  {
    if maximizing then Lt(best, score) else Lt(score, best)
  }

  /** The scan's starting score: -inf for X, +inf for O. */
  function Worst(maximizing: bool): (r: Float)
  {
    if maximizing then NegInf else PosInf
  }

  /** The scan over scores[i..], holding the best index so far. */
  function BestFrom(scores: seq<Float>, maximizing: bool, i: nat, best: Option<nat>): (r: Option<nat>)
    requires i <= |scores| && (best.Some? ==> best.value < i)
    ensures r.Some? ==> r.value < |scores|
    ensures best.Some? ==> r.Some?
    decreases |scores| - i
  {
    if i == |scores| then best
    else
      var current := if best.Some? then scores[best.value] else Worst(maximizing);
      var best' := if Better(scores[i], current, maximizing) then Some(i) else best;
      BestFrom(scores, maximizing, i + 1, best')
  }

  /** make_move's choice: the index of the first score strictly better than every
      score before it and than the starting bound, or None when no score beats it. */
  function BestIndex(scores: seq<Float>, maximizing: bool): (r: Option<nat>)
    ensures r.Some? ==> r.value < |scores|
  {
    BestFrom(scores, maximizing, 0, None)
  }

  /** Without NaN scores the scan picks the first optimal score: it is better than the
      starting bound and than every earlier score, and no later score is better; and it
      picks nothing exactly when no score beats the starting bound. */
  lemma {:induction false} BestIndexIsFirstOptimum(scores: seq<Float>, maximizing: bool)
    requires NoNaN(scores)
    ensures BestIndex(scores, maximizing).None? <==>
      forall j :: 0 <= j < |scores| ==> !Better(scores[j], Worst(maximizing), maximizing)
    ensures BestIndex(scores, maximizing).Some? ==>
      var k := BestIndex(scores, maximizing).value;
      && Better(scores[k], Worst(maximizing), maximizing)
      && (forall j :: 0 <= j < k ==> Better(scores[k], scores[j], maximizing))
      && (forall j :: k < j < |scores| ==> !Better(scores[j], scores[k], maximizing))
  {
    BestIndexSkipsNaN(scores, maximizing);
  }

  /** With NaN scores, which compare false both ways: the scan never picks a NaN score,
      and otherwise picks the first score better than the bound and than every earlier
      number, with no later score better. */
  lemma {:induction false} BestIndexSkipsNaN(scores: seq<Float>, maximizing: bool)
    ensures BestIndex(scores, maximizing).None? <==>
      forall j :: 0 <= j < |scores| ==> !Better(scores[j], Worst(maximizing), maximizing)
    ensures BestIndex(scores, maximizing).Some? ==>
      var k := BestIndex(scores, maximizing).value;
      && !scores[k].NaN?
      && Better(scores[k], Worst(maximizing), maximizing)
      && (forall j :: 0 <= j < k && !scores[j].NaN? ==> Better(scores[k], scores[j], maximizing))
      && (forall j :: k < j < |scores| ==> !Better(scores[j], scores[k], maximizing))
  {
    BestFromInvariant(scores, maximizing, 0, None);
  }

  /** The scan's invariant: `best` (or the bound, when None) is at least as good as every
      score seen, and a chosen index beats the bound and every score before it. */
  predicate ScanInvariant(scores: seq<Float>, maximizing: bool, i: nat, best: Option<nat>)
    requires i <= |scores| && (best.Some? ==> best.value < i)
  {
    var current := if best.Some? then scores[best.value] else Worst(maximizing);
    && (forall j :: 0 <= j < i ==> !Better(scores[j], current, maximizing))
    && (best.Some? ==>
          && Better(current, Worst(maximizing), maximizing)
          && forall j :: 0 <= j < best.value && !scores[j].NaN? ==> Better(current, scores[j], maximizing))
  }

  lemma {:induction false} BestFromInvariant(scores: seq<Float>, maximizing: bool, i: nat, best: Option<nat>)
    requires i <= |scores| && (best.Some? ==> best.value < i)
    requires ScanInvariant(scores, maximizing, i, best)
    ensures var r := BestFrom(scores, maximizing, i, best);
      && (r.None? <==> best.None? && forall j :: i <= j < |scores| ==> !Better(scores[j], Worst(maximizing), maximizing))
      && (r.Some? ==>
            && !scores[r.value].NaN?
            && Better(scores[r.value], Worst(maximizing), maximizing)
            && (forall j :: 0 <= j < r.value && !scores[j].NaN? ==> Better(scores[r.value], scores[j], maximizing))
            && (forall j :: r.value < j < |scores| ==> !Better(scores[j], scores[r.value], maximizing)))
    decreases |scores| - i
  {
    if i < |scores| {
      var current := if best.Some? then scores[best.value] else Worst(maximizing);
      var s := scores[i];
      if Better(s, current, maximizing) {
        forall j | 0 <= j < i && !scores[j].NaN?
          ensures Better(s, scores[j], maximizing)
        {
          LeTotal(scores[j], current);
          LtLe(scores[j], current, s);
          LtLe(s, current, scores[j]);
        }
        if best.Some? {
          LtLe(Worst(maximizing), current, s);
          LtLe(s, current, Worst(maximizing));
        }
        BestFromInvariant(scores, maximizing, i + 1, Some(i));
      } else {
        BestFromInvariant(scores, maximizing, i + 1, best);
      }
    }
  }
}
