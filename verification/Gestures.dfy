/** Whole gesture traces fed to the stroke recorder. A trace is the sequence
    of grant and move events the pan responder delivers; `Record` folds the
    two handlers over it. `Group` is an independent description of the same
    outcome: the trace is cut at every grant, each piece becomes one stroke
    starting at the grant's point and running through the points of the moves
    that follow it, and moves before the first grant become one orphan stroke.
 */
module Gestures {
  import opened Strokes

  /** A pan-responder event: `Began` is onPanResponderGrant, `Moved` is
      onPanResponderMove, each with the pointer's local position. */
  datatype Gesture = Began(at: Point) | Moved(to: Point)

  function Apply(paths: seq<Stroke>, g: Gesture): seq<Stroke> {
    match g
    case Began(p) => Grant(paths, p)
    case Moved(p) => Move(paths, p)
  }

  /** The session after the handlers have run on every event of `t`, in order. */
  function Record(paths: seq<Stroke>, t: seq<Gesture>): seq<Stroke>
    decreases |t|
  {
    if |t| == 0 then paths else Record(Apply(paths, t[0]), t[1..])
  }

  // ---------------------------------------------------------------------------
  // The reference description
  // ---------------------------------------------------------------------------

  /** Every event of `t` is a move. */
  predicate AllMoves(t: seq<Gesture>) {
    forall i :: 0 <= i < |t| ==> t[i].Moved?
  }

  /** How many events at the front of `t` are moves. */
  function LeadingMoves(t: seq<Gesture>): (k: nat)
    ensures k <= |t|
    ensures AllMoves(t[..k])
    ensures k < |t| ==> t[k].Began?
  {
    if |t| > 0 && t[0].Moved? then
      var k := LeadingMoves(t[1..]);
      assert t[..1 + k] == [t[0]] + t[1..][..k];
      1 + k
    else 0
  }

  /** The points of a run of events, in order. */
  function Targets(t: seq<Gesture>): (ps: seq<Point>)
    ensures |ps| == |t|
  {
    if |t| == 0 then [] else [Position(t[0])] + Targets(t[1..])
  }

  function Position(g: Gesture): Point {
    match g
    case Began(p) => p
    case Moved(p) => p
  }

  /** The length of the piece of `t` that belongs to its first event: that
      event and the moves following it, up to the next grant. */
  function PieceLength(t: seq<Gesture>): (n: nat)
    requires |t| > 0
    ensures 1 <= n <= |t|
    ensures AllMoves(t[1..n])
    ensures n < |t| ==> t[n].Began?
  {
    var k := LeadingMoves(t[1..]);
    assert t[1..1 + k] == t[1..][..k];
    1 + k
  }

  /** One stroke per grant of `t`: its moveto is the grant's point and its
      linetos are the points of the moves up to the next grant. */
  function Chunks(t: seq<Gesture>): seq<Stroke>
    requires |t| == 0 || t[0].Began?
    decreases |t|
  {
    if |t| == 0 then []
    else
      var n := PieceLength(t);
      [Stroke(MoveTo(t[0].at), Targets(t[1..n]))] + Chunks(t[n..])
  }

  /** The expected session for a trace started on an empty canvas: moves
      before any grant make one orphan stroke, then one stroke per grant. */
  function Group(t: seq<Gesture>): seq<Stroke> {
    var k := LeadingMoves(t);
    (if k == 0 then [] else [Stroke(Undefined, Targets(t[..k]))]) + Chunks(t[k..])
  }

  // ---------------------------------------------------------------------------
  // Recording agrees with the reference
  // ---------------------------------------------------------------------------

  lemma {:induction false} RecordAppend(paths: seq<Stroke>, a: seq<Gesture>, b: seq<Gesture>)
    ensures Record(paths, a + b) == Record(Record(paths, a), b)
    decreases |a|
  {
    if |a| == 0 {
      assert a + b == b;
    } else {
      assert (a + b)[1..] == a[1..] + b;
      RecordAppend(Apply(paths, a[0]), a[1..], b);
    }
  }

  /** A run of moves only lengthens the last stroke (or, on an empty session,
      the orphan stroke), by the run's points in order. */
  lemma {:induction false} RecordMoves(paths: seq<Stroke>, ms: seq<Gesture>)
    requires |ms| > 0
    requires AllMoves(ms)
    ensures Record(paths, ms)
         == AllButLast(paths) + [Stroke(LastOr(paths).start, LastOr(paths).lines + Targets(ms))]
    decreases |ms|
  {
    var p := ms[0].to;
    var next := Move(paths, p);
    var last := LastOr(paths);
    assert AllButLast(next) == AllButLast(paths);
    assert LastOr(next) == Stroke(last.start, last.lines + [p]);
    if |ms| == 1 {
      assert Targets(ms) == [p];
    } else {
      RecordMoves(next, ms[1..]);
      assert Targets(ms) == [p] + Targets(ms[1..]);
      assert last.lines + [p] + Targets(ms[1..]) == last.lines + Targets(ms);
    }
  }

  /** A grant followed by a run of moves adds one stroke: the grant's moveto
      and one lineto per move. */
  lemma RecordOneChunk(paths: seq<Stroke>, p: Point, moves: seq<Gesture>)
    requires AllMoves(moves)
    ensures Record(paths, [Began(p)] + moves) == paths + [Stroke(MoveTo(p), Targets(moves))]
  {
    var started := Grant(paths, p);
    assert ([Began(p)] + moves)[1..] == moves;
    assert Record(paths, [Began(p)] + moves) == Record(started, moves);
    if |moves| == 0 {
      assert Targets(moves) == [];
    } else {
      RecordMoves(started, moves);
      assert AllButLast(started) == paths;
      assert LastOr(started) == Stroke(MoveTo(p), []);
      assert [] + Targets(moves) == Targets(moves);
    }
  }

  /** Recording the first piece of a grant-led trace adds its stroke. */
  lemma RecordFirstPiece(paths: seq<Stroke>, t: seq<Gesture>)
    requires |t| > 0 && t[0].Began?
    ensures Record(paths, t)
         == Record(paths + [Stroke(MoveTo(t[0].at), Targets(t[1..PieceLength(t)]))], t[PieceLength(t)..])
  {
    var n := PieceLength(t);
    var moves := t[1..n];
    assert t == ([Began(t[0].at)] + moves) + t[n..];
    RecordAppend(paths, [Began(t[0].at)] + moves, t[n..]);
    RecordOneChunk(paths, t[0].at, moves);
  }

  /** Starting from a grant, recording appends exactly the reference strokes. */
  lemma {:induction false} RecordChunks(paths: seq<Stroke>, t: seq<Gesture>)
    requires |t| == 0 || t[0].Began?
    ensures Record(paths, t) == paths + Chunks(t)
    decreases |t|
  {
    if |t| == 0 {
      assert paths + [] == paths;
    } else {
      var n := PieceLength(t);
      var stroke := Stroke(MoveTo(t[0].at), Targets(t[1..n]));
      var rest := t[n..];
      assert Chunks(t) == [stroke] + Chunks(rest);
      assert Record(paths, t) == Record(paths + [stroke], rest) by {
        RecordFirstPiece(paths, t);
      }
      RecordChunks(paths + [stroke], rest);
      assert paths + [stroke] + Chunks(rest) == paths + ([stroke] + Chunks(rest));
    }
  }

  /** Any trace on an empty canvas yields exactly the reference session. */
  lemma RecordGroup(t: seq<Gesture>)
    ensures Record([], t) == Group(t)
  {
    var k := LeadingMoves(t);
    var rest := t[k..];
    assert t == t[..k] + rest;
    RecordAppend([], t[..k], rest);
    var orphan := Record([], t[..k]);
    if k == 0 {
      assert orphan == [];
    } else {
      RecordMoves([], t[..k]);
      assert [] + Targets(t[..k]) == Targets(t[..k]);
      assert orphan == [Stroke(Undefined, Targets(t[..k]))];
    }
    RecordChunks(orphan, rest);
  }

  // ---------------------------------------------------------------------------
  // Counting
  // ---------------------------------------------------------------------------

  function Grants(t: seq<Gesture>): nat {
    if |t| == 0 then 0 else (if t[0].Began? then 1 else 0) + Grants(t[1..])
  }

  function Moves(t: seq<Gesture>): nat {
    if |t| == 0 then 0 else (if t[0].Moved? then 1 else 0) + Moves(t[1..])
  }

  /** All linetos of a session, summed over its strokes. */
  function TotalLines(paths: seq<Stroke>): nat {
    if |paths| == 0 then 0 else TotalLines(paths[..|paths| - 1]) + |paths[|paths| - 1].lines|
  }

  lemma TotalLinesGrant(paths: seq<Stroke>, p: Point)
    ensures TotalLines(Grant(paths, p)) == TotalLines(paths)
  {
    assert Grant(paths, p)[..|paths|] == paths;
  }

  lemma TotalLinesMove(paths: seq<Stroke>, p: Point)
    ensures TotalLines(Move(paths, p)) == TotalLines(paths) + 1
  {
    var r := Move(paths, p);
    if |paths| == 0 {
      assert r[..0] == [];
    } else {
      assert r[..|r| - 1] == paths[..|paths| - 1];
    }
  }

  /** Once the session holds a stroke, or when the trace opens with a grant,
      every grant adds one stroke and nothing else changes the count. Every
      move adds exactly one lineto somewhere in the session. */
  lemma {:induction false} RecordCounts(paths: seq<Stroke>, t: seq<Gesture>)
    requires |paths| > 0 || |t| == 0 || t[0].Began?
    ensures |Record(paths, t)| == |paths| + Grants(t)
    ensures TotalLines(Record(paths, t)) == TotalLines(paths) + Moves(t)
    decreases |t|
  {
    if |t| > 0 {
      var next := Apply(paths, t[0]);
      match t[0] {
        case Began(p) => TotalLinesGrant(paths, p);
        case Moved(p) => TotalLinesMove(paths, p);
      }
      RecordCounts(next, t[1..]);
    }
  }

  /** The orphan case: a trace that opens with a move on an empty canvas ends
      with one stroke more than it has grants. */
  lemma {:induction false} OrphanCount(t: seq<Gesture>)
    requires |t| > 0 && t[0].Moved?
    ensures |Record([], t)| == Grants(t) + 1
    ensures TotalLines(Record([], t)) == Moves(t)
  {
    var first := Move([], t[0].to);
    RecordCounts(first, t[1..]);
    TotalLinesMove([], t[0].to);
  }
}
