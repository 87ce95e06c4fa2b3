/** The stroke recorder of the drawing canvas. The component keeps one SVG
    path string per stroke; here a stroke is structured data (where it starts
    and the points its line segments run to) and `RenderStroke` produces the
    exact `M x y` / ` L x y` text the component would hold. The lemmas show
    that the structured updates and the component's string updates agree, and
    that a rendered path can be read back, so no information is lost.
 */
module Strokes {
  import opened Text

  /** A pointer position local to the drawing surface (`locationX`,
      `locationY`). Whole numbers stand in for JavaScript numbers. */
  datatype Point = Point(x: int, y: int)

  /** How a stroke's string begins: the moveto written on gesture start, or
      the text "undefined" that JavaScript produces when a move arrives while
      there is no stroke to extend. */
  datatype Start = MoveTo(at: Point) | Undefined

  /** One path: its start, then one lineto per point of `lines`, in order. */
  datatype Stroke = Stroke(start: Start, lines: seq<Point>)

  /** What `prev[prev.length - 1]` yields: the last stroke, or `undefined`
      (a start with no lines) when the session is empty. */
  function LastOr(paths: seq<Stroke>): Stroke {
    if |paths| == 0 then Stroke(Undefined, []) else paths[|paths| - 1]
  }

  /** What `prev.slice(0, -1)` yields: all strokes but the last. */
  function AllButLast(paths: seq<Stroke>): seq<Stroke> {
    if |paths| == 0 then [] else paths[..|paths| - 1]
  }

  // ---------------------------------------------------------------------------
  // The two gesture handlers on structured strokes
  // ---------------------------------------------------------------------------

  /** onPanResponderGrant: a new stroke holding only a moveto at `p` goes to
      the end; every earlier stroke stays where it was. */
  function Grant(paths: seq<Stroke>, p: Point): (r: seq<Stroke>)
    ensures |r| == |paths| + 1
    ensures forall i :: 0 <= i < |paths| ==> r[i] == paths[i]
    ensures r[|paths|].start == MoveTo(p) && r[|paths|].lines == []
  {
    paths + [Stroke(MoveTo(p), [])]
  }

  /** onPanResponderMove: on a non-empty session the length is kept, every
      stroke but the last is untouched, and the last gains one lineto at `p`.
      On an empty session the result is one orphan stroke, "undefined L x y". */
  function Move(paths: seq<Stroke>, p: Point): (r: seq<Stroke>)
    ensures |paths| > 0 ==> |r| == |paths|
    ensures |paths| > 0 ==> forall i :: 0 <= i < |paths| - 1 ==> r[i] == paths[i]
    ensures |paths| > 0 ==>
      r[|paths| - 1].start == paths[|paths| - 1].start &&
      r[|paths| - 1].lines == paths[|paths| - 1].lines + [p]
    ensures |paths| == 0 ==> r == [Stroke(Undefined, [p])]
  {
    var last := LastOr(paths);
    assert |paths| == 0 ==> last.lines + [p] == [p];
    AllButLast(paths) + [Stroke(last.start, last.lines + [p])]
  }

  // ---------------------------------------------------------------------------
  // Rendering to the path mini-language
  // ---------------------------------------------------------------------------

  function PointText(p: Point): string {
    ShowInt(p.x) + " " + ShowInt(p.y)
  }

  function StartText(s: Start): string {
    match s
    case MoveTo(p) => "M " + PointText(p)
    case Undefined => "undefined"
  }

  function LineText(p: Point): string {
    " L " + PointText(p)
  }

  function LinesText(ps: seq<Point>): string {
    if |ps| == 0 then "" else LinesText(ps[..|ps| - 1]) + LineText(ps[|ps| - 1])
  }

  /** The `d` attribute of the SVG Path drawn for a stroke. */
  function RenderStroke(s: Stroke): string {
    StartText(s.start) + LinesText(s.lines)
  }

  /** The component's `paths` state: one string per stroke, same order. */
  function RenderPaths(paths: seq<Stroke>): (r: seq<string>)
    ensures |r| == |paths|
    ensures forall i :: 0 <= i < |paths| ==> r[i] == RenderStroke(paths[i])
  {
    seq(|paths|, i requires 0 <= i < |paths| => RenderStroke(paths[i]))
  }

  // ---------------------------------------------------------------------------
  // The handlers as the component writes them, on strings
  // ---------------------------------------------------------------------------

  /** The grant updater `prev => [...prev, `M ${x} ${y}`]`. */
  function GrantText(prev: seq<string>, p: Point): seq<string> {
    prev + ["M " + ShowInt(p.x) + " " + ShowInt(p.y)]
  }

  /** The move updater: `prev[prev.length - 1] + ` L ${x} ${y}`` replaces the
      last entry. On an empty list the read gives `undefined`, which string
      concatenation turns into "undefined", and `slice(0, -1)` gives `[]`. */
  function MoveText(prev: seq<string>, p: Point): seq<string> {
    var last := if |prev| == 0 then "undefined" else prev[|prev| - 1];
    var kept := if |prev| == 0 then [] else prev[..|prev| - 1];
    kept + [last + " L " + ShowInt(p.x) + " " + ShowInt(p.y)]
  }

  /** The structured grant is the component's grant, seen through rendering. */
  lemma RenderGrant(paths: seq<Stroke>, p: Point)
    ensures RenderPaths(Grant(paths, p)) == GrantText(RenderPaths(paths), p)
  {
    var s := Stroke(MoveTo(p), []);
    assert RenderStroke(s) == "M " + ShowInt(p.x) + " " + ShowInt(p.y);
  }

  /** Extending a stroke by a point appends exactly the text ` L x y`. */
  lemma RenderExtend(s: Stroke, p: Point)
    ensures RenderStroke(Stroke(s.start, s.lines + [p]))
         == RenderStroke(s) + " L " + ShowInt(p.x) + " " + ShowInt(p.y)
  {
    assert (s.lines + [p])[..|s.lines|] == s.lines;
    var a, b, c := StartText(s.start), LinesText(s.lines), LineText(p);
    assert LinesText(s.lines + [p]) == b + c;
    assert a + (b + c) == (a + b) + c;
    assert c == " L " + ShowInt(p.x) + " " + ShowInt(p.y);
  }

  lemma RenderMoveEmpty(p: Point)
    ensures RenderPaths(Move([], p)) == MoveText([], p)
  {
    var ext := Stroke(Undefined, [p]);
    RenderExtend(Stroke(Undefined, []), p);
    assert RenderStroke(Stroke(Undefined, [])) == "undefined";
    assert Move([], p) == [ext];
    assert RenderPaths([ext]) == [RenderStroke(ext)];
    assert MoveText([], p) == ["undefined" + " L " + ShowInt(p.x) + " " + ShowInt(p.y)];
  }

  lemma RenderMoveNonEmpty(paths: seq<Stroke>, p: Point)
    requires |paths| > 0
    ensures RenderPaths(Move(paths, p)) == MoveText(RenderPaths(paths), p)
  {
    var n := |paths|;
    var last := paths[n - 1];
    var ext := Stroke(last.start, last.lines + [p]);
    RenderExtend(last, p);
    var lhs := RenderPaths(Move(paths, p));
    var rhs := MoveText(RenderPaths(paths), p);
    assert |lhs| == |rhs| == n;
    forall i | 0 <= i < n
      ensures lhs[i] == rhs[i]
    {
      if i == n - 1 {
        assert Move(paths, p)[i] == ext;
      }
    }
  }

  /** The structured move is the component's move, seen through rendering,
      including the orphan move on an empty session. */
  lemma RenderMove(paths: seq<Stroke>, p: Point)
    ensures RenderPaths(Move(paths, p)) == MoveText(RenderPaths(paths), p)
  {
    if |paths| == 0 {
      RenderMoveEmpty(p);
    } else {
      RenderMoveNonEmpty(paths, p);
    }
  }

  // ---------------------------------------------------------------------------
  // Reading a rendered path back
  // ---------------------------------------------------------------------------

  function PointTokens(p: Point): seq<string> {
    [ShowInt(p.x), ShowInt(p.y)]
  }

  function StartTokens(s: Start): seq<string> {
    match s
    case MoveTo(p) => ["M"] + PointTokens(p)
    case Undefined => ["undefined"]
  }

  /** The three words of one lineto. */
  function LineGroup(p: Point): seq<string> {
    ["L", ShowInt(p.x), ShowInt(p.y)]
  }

  function LineTokens(ps: seq<Point>): seq<string> {
    if |ps| == 0 then [] else LineTokens(ps[..|ps| - 1]) + LineGroup(ps[|ps| - 1])
  }

  /** The space-separated words of a stroke's path string. */
  function Tokens(s: Stroke): seq<string> {
    StartTokens(s.start) + LineTokens(s.lines)
  }

  /** Reads a run of `L x y` groups, from the back. */
  function ParseLines(ts: seq<string>): Option<seq<Point>> {
    if |ts| == 0 then Some([])
    else if |ts| >= 3 && ts[|ts| - 3] == "L" then
      match (ParseLines(ts[..|ts| - 3]), ParseInt(ts[|ts| - 2]), ParseInt(ts[|ts| - 1]))
      case (Some(ps), Some(x), Some(y)) => Some(ps + [Point(x, y)])
      case _ => None
    else None
  }

  function ParseTokens(ts: seq<string>): Option<Stroke> {
    if |ts| >= 1 && ts[0] == "undefined" then
      match ParseLines(ts[1..])
      case Some(ps) => Some(Stroke(Undefined, ps))
      case None => None
    else if |ts| >= 3 && ts[0] == "M" then
      match (ParseInt(ts[1]), ParseInt(ts[2]), ParseLines(ts[3..]))
      case (Some(x), Some(y), Some(ps)) => Some(Stroke(MoveTo(Point(x, y)), ps))
      case _ => None
    else None
  }

  /** The inverse of RenderStroke: reads a path string back into its stroke.
      It accepts the orphan form `undefined L x y` as well, which SVG path
      data itself has no command for. */
  function ParseStroke(d: string): Option<Stroke> {
    ParseTokens(Split(d))
  }

  lemma {:induction false} LineTokensShape(ps: seq<Point>)
    ensures |LineTokens(ps)| == 3 * |ps|
    ensures forall i :: 0 <= i < |LineTokens(ps)| ==> NoSpace(LineTokens(ps)[i])
  {
    if |ps| > 0 {
      LineTokensShape(ps[..|ps| - 1]);
      var p := ps[|ps| - 1];
      assert NoSpace(ShowInt(p.x)) && NoSpace(ShowInt(p.y));
    }
  }

  lemma ParseLinesSnoc(ts: seq<string>, p: Point)
    requires ParseLines(ts).Some?
    ensures ParseLines(ts + LineGroup(p)) == Some(ParseLines(ts).value + [p])
  {
    var all := ts + LineGroup(p);
    assert all[..|all| - 3] == ts;
    assert all[|all| - 3] == "L";
    assert all[|all| - 2] == ShowInt(p.x) && all[|all| - 1] == ShowInt(p.y);
    ParseShowInt(p.x);
    ParseShowInt(p.y);
  }

  lemma {:induction false} ParseLineTokens(ps: seq<Point>)
    ensures ParseLines(LineTokens(ps)) == Some(ps)
  {
    if |ps| > 0 {
      var init := ps[..|ps| - 1];
      ParseLineTokens(init);
      ParseLinesSnoc(LineTokens(init), ps[|ps| - 1]);
      assert init + [ps[|ps| - 1]] == ps;
    }
  }

  lemma JoinLineGroup(p: Point)
    ensures Join(LineGroup(p)) == "L" + " " + PointText(p)
  {
    var g := LineGroup(p);
    assert g[1..] == PointTokens(p);
    assert PointTokens(p)[1..] == [ShowInt(p.y)];
    assert Join(PointTokens(p)) == PointText(p);
  }

  /** The string rearrangement behind one step of LinesTextIsJoin. */
  lemma ConcatStep(x: string, lines: string, front: string, point: string, group: string)
    requires x + lines == front
    requires group == "L" + " " + point
    ensures x + (lines + (" L " + point)) == front + " " + group
  {
  }

  lemma {:induction false} LinesTextIsJoin(prefix: seq<string>, ps: seq<Point>)
    requires |prefix| > 0
    ensures Join(prefix) + LinesText(ps) == Join(prefix + LineTokens(ps))
  {
    if |ps| > 0 {
      var init := ps[..|ps| - 1];
      var p := ps[|ps| - 1];
      var front := prefix + LineTokens(init);
      LinesTextIsJoin(prefix, init);
      JoinLineGroup(p);
      JoinAppend(front, LineGroup(p));
      assert prefix + LineTokens(ps) == front + LineGroup(p);
      ConcatStep(Join(prefix), LinesText(init), Join(front), PointText(p), Join(LineGroup(p)));
    } else {
      assert prefix + LineTokens(ps) == prefix;
    }
  }

  /** A stroke's path string is its words joined by single spaces. */
  lemma RenderIsJoin(s: Stroke)
    ensures RenderStroke(s) == Join(Tokens(s))
  {
    var head := StartTokens(s.start);
    assert Join(head) == StartText(s.start) by {
      match s.start
      case MoveTo(p) =>
        assert head[1..] == PointTokens(p);
        assert PointTokens(p)[1..] == [ShowInt(p.y)];
        assert Join(PointTokens(p)) == PointText(p);
      case Undefined =>
    }
    LinesTextIsJoin(head, s.lines);
  }

  lemma TokensNoSpace(s: Stroke)
    ensures |Tokens(s)| > 0
    ensures forall i :: 0 <= i < |Tokens(s)| ==> NoSpace(Tokens(s)[i])
  {
    var ts := Tokens(s);
    var head := StartTokens(s.start);
    LineTokensShape(s.lines);
    assert forall i :: 0 <= i < |head| ==> NoSpace(head[i]) by {
      match s.start
      case MoveTo(p) =>
        assert NoSpace(ShowInt(p.x)) && NoSpace(ShowInt(p.y));
      case Undefined =>
    }
    forall i | 0 <= i < |ts|
      ensures NoSpace(ts[i])
    {
      if i >= |head| {
        assert ts[i] == LineTokens(s.lines)[i - |head|];
      } else {
        assert ts[i] == head[i];
      }
    }
  }

  lemma ParseTokensOf(s: Stroke)
    ensures ParseTokens(Tokens(s)) == Some(s)
  {
    var ts := Tokens(s);
    var head := StartTokens(s.start);
    ParseLineTokens(s.lines);
    assert ts[|head|..] == LineTokens(s.lines);
    match s.start
    case MoveTo(p) =>
      ParseShowInt(p.x);
      ParseShowInt(p.y);
    case Undefined =>
  }

  /** Round trip: the rendered path string determines its stroke. */
  lemma ParseRender(s: Stroke)
    ensures ParseStroke(RenderStroke(s)) == Some(s)
  {
    RenderIsJoin(s);
    TokensNoSpace(s);
    SplitJoin(Tokens(s));
    ParseTokensOf(s);
  }

  /** Different strokes never render to the same path string. */
  lemma RenderInjective(a: Stroke, b: Stroke)
    ensures RenderStroke(a) == RenderStroke(b) <==> a == b
  {
    if RenderStroke(a) == RenderStroke(b) {
      ParseRender(a);
      ParseRender(b);
    }
  }
}
