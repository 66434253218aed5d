/** The waypoint path of a line and the edits the line engine makes to it.
    A path interleaves station positions (even indices) with free control
    points (odd indices); here it is a plain sequence of positions, so that
    what each edit does to it can be stated and proved without objects. */
module Paths {
  import opened Sequences

  /** A point of the plane. The model stores coordinates and never computes with them. */
  datatype Position = Position(x: real, y: real)

  /** `path` interleaves the positions `stops` of the stations with one control
      point between each two neighbours. */
  predicate Interleaved(stops: seq<Position>, path: seq<Position>)
  {
    |stops| >= 1 && |path| == 2 * |stops| - 1 &&
    forall i :: 0 <= i < |stops| ==> path[2 * i] == stops[i]
  }

  /** The path after `path.add(index, ctrl); path.add(index, stop)`: both land at
      path index `index`, whatever station index that is. */
  function InsertedAt(path: seq<Position>, index: nat, stop: Position, ctrl: Position): (r: seq<Position>)
    requires index <= |path|
    ensures |r| == |path| + 2 && r[index] == stop && r[index + 1] == ctrl
    ensures forall w :: 0 <= w < index ==> r[w] == path[w]
    ensures forall w :: index <= w < |path| ==> r[w + 2] == path[w]
  {
    path[..index] + [stop, ctrl] + path[index..]
  }

  /** The path after the control point between stations `index - 1` and `index`
      is replaced by `c1`, the new station's position and `c2`. */
  function SplitSegment(path: seq<Position>, index: nat, c1: Position, stop: Position, c2: Position): (r: seq<Position>)
    requires 1 <= index && 2 * index - 1 < |path|
    ensures |r| == |path| + 2
    ensures r[2 * index - 1] == c1 && r[2 * index] == stop && r[2 * index + 1] == c2
    ensures forall w :: 0 <= w < 2 * index - 1 ==> r[w] == path[w]
    ensures forall w :: 2 * index - 1 < w < |path| ==> r[w + 2] == path[w]
  {
    path[..2 * index - 1] + [c1, stop, c2] + path[2 * index..]
  }

  /** The path after `path.remove(0)` and, if anything is left, one more `path.remove(0)`. */
  function TrimHead(path: seq<Position>): (r: seq<Position>)
    requires |path| >= 1
    ensures |r| == if |path| >= 2 then |path| - 2 else 0
    ensures forall w :: 2 <= w < |path| ==> r[w - 2] == path[w]
  {
    if |path| >= 2 then path[2..] else []
  }

  /** The path after the last waypoint is removed and, if anything is left, the new last one. */
  function TrimTail(path: seq<Position>): (r: seq<Position>)
    requires |path| >= 1
    ensures |r| == if |path| >= 2 then |path| - 2 else 0
    ensures forall w :: 0 <= w < |r| ==> r[w] == path[w]
  {
    if |path| >= 2 then path[..|path| - 2] else []
  }

  /** The path edit of `AddStationFromLink`: remove the control point at
      `2*index-1`, then insert `c2`, `stop` and `c1` there in turn. */
  method ReplaceControlPoint(p: seq<Position>, index: int, c1: Position, stop: Position, c2: Position)
    returns (r: seq<Position>)
    requires 1 <= index && 2 * index - 1 < |p|
    ensures r == SplitSegment(p, index, c1, stop, c2)
  {
    var indexToAdd := (index - 1) * 2 + 1;
    ghost var before, after := p[..indexToAdd], p[indexToAdd + 1..];
    assert p == before + ([p[indexToAdd]] + after);
    r := RemoveAt(p, index * 2 - 1);
    r := InsertAt(r, indexToAdd, c2);
    r := InsertAt(r, indexToAdd, stop);
    r := InsertAt(r, indexToAdd, c1);
    ReplaceSteps(before, p[indexToAdd], after, c1, stop, c2);
  }

  /** The list operations of `ReplaceControlPoint`, on a path split around the
      control point it replaces. */
  lemma ReplaceSteps(a: seq<Position>, m: Position, b: seq<Position>, c1: Position, stop: Position, c2: Position)
    ensures InsertAt(InsertAt(InsertAt(RemoveAt(a + ([m] + b), |a|), |a|, c2), |a|, stop), |a|, c1) == a + [c1, stop, c2] + b
  {
    var b1 := [c2] + b;
    var b2 := [stop] + b1;
    RemoveAtSplice(a, m, b);
    InsertAtSplice(a, b, c2);
    InsertAtSplice(a, b1, stop);
    InsertAtSplice(a, b2, c1);
    assert a + ([c1] + b2) == a + [c1, stop, c2] + b;
  }

  /** The path edit shared by `RemoveStation` and `RemoveLoop`: remove the
      waypoint at one end and, if anything is left, the next one there. */
  method TrimEnd(p: seq<Position>, atHead: bool) returns (r: seq<Position>)
    requires |p| >= 1
    ensures r == if atHead then TrimHead(p) else TrimTail(p)
  {
    r := p;
    if atHead {
      r := RemoveAt(r, 0);
      if |r| > 0 {
        r := RemoveAt(r, 0);
      }
    } else {
      r := RemoveAt(r, |r| - 1);
      if |r| > 0 {
        r := RemoveAt(r, |r| - 1);
      }
    }
  }

  /** Two insertions at the same index place the second-inserted element first. */
  lemma InsertTwiceIsInsertedAt(path: seq<Position>, index: nat, stop: Position, ctrl: Position)
    requires index <= |path|
    ensures InsertAt(InsertAt(path, index, ctrl), index, stop) == InsertedAt(path, index, stop, ctrl)
  {
  }

  /** Appending a control point and a station keeps the interleaving. */
  lemma AppendKeepsInterleaving(stops: seq<Position>, path: seq<Position>, ctrl: Position, stop: Position)
    requires Interleaved(stops, path)
    ensures Interleaved(stops + [stop], path + [ctrl, stop])
  {
  }

  /** Inserting at index 0 keeps the interleaving: there path index and station index agree. */
  lemma InsertAtHeadKeepsInterleaving(stops: seq<Position>, path: seq<Position>, stop: Position, ctrl: Position)
    requires Interleaved(stops, path)
    ensures Interleaved(InsertAt(stops, 0, stop), InsertedAt(path, 0, stop, ctrl))
  {
    var s', p' := InsertAt(stops, 0, stop), InsertedAt(path, 0, stop, ctrl);
    forall i | 0 <= i < |s'| ensures p'[2 * i] == s'[i] {
      if i > 0 {
        var w := 2 * i - 2;
        assert p'[w + 2] == path[w];
        assert s'[(i - 1) + 1] == stops[i - 1];
      }
    }
  }

  /** Inserting at a station index of 1 or more breaks the interleaving, except
      when the inserted positions happen to coincide with the ones the new
      layout expects. */
  lemma InsertAtInteriorBreaksInterleaving(stops: seq<Position>, path: seq<Position>, index: nat, stop: Position, ctrl: Position)
    requires Interleaved(stops, path) && 1 <= index <= |stops|
    ensures Interleaved(InsertAt(stops, index, stop), InsertedAt(path, index, stop, ctrl)) ==>
              if index == 1 then ctrl == stop else stop == stops[index - 1]
  {
    var s', p' := InsertAt(stops, index, stop), InsertedAt(path, index, stop, ctrl);
    if Interleaved(s', p') {
      assert p'[2 * index] == s'[index] == stop;
      if index >= 2 {
        assert p'[(2 * index - 2) + 2] == path[2 * index - 2] == stops[index - 1];
      }
    }
  }

  /** Replacing a control point by `c1`, a station and `c2` keeps the interleaving. */
  lemma SplitSegmentKeepsInterleaving(stops: seq<Position>, path: seq<Position>, index: nat, c1: Position, stop: Position, c2: Position)
    requires Interleaved(stops, path) && 1 <= index < |stops|
    ensures Interleaved(InsertAt(stops, index, stop), SplitSegment(path, index, c1, stop, c2))
  {
    var s', p' := InsertAt(stops, index, stop), SplitSegment(path, index, c1, stop, c2);
    forall i | 0 <= i < |s'| ensures p'[2 * i] == s'[i] {
      if i > index {
        assert p'[2 * (i - 1) + 2] == path[2 * (i - 1)];
      }
    }
  }

  /** Trimming the head of a line of two or more stations keeps the interleaving. */
  lemma TrimHeadKeepsInterleaving(stops: seq<Position>, path: seq<Position>)
    requires Interleaved(stops, path) && |stops| >= 2
    ensures Interleaved(stops[1..], TrimHead(path))
  {
    var p' := TrimHead(path);
    forall i | 0 <= i < |stops| - 1 ensures p'[2 * i] == stops[1..][i] {
      assert p'[2 * (i + 1) - 2] == path[2 * (i + 1)];
    }
  }

  /** Trimming the tail of a line of two or more stations keeps the interleaving. */
  lemma TrimTailKeepsInterleaving(stops: seq<Position>, path: seq<Position>)
    requires Interleaved(stops, path) && |stops| >= 2
    ensures Interleaved(stops[..|stops| - 1], TrimTail(path))
  {
  }

  /** Trimming the tail while the station list keeps its length breaks the
      interleaving: the path is two waypoints too short. */
  lemma TrimTailAloneBreaksInterleaving(stops: seq<Position>, path: seq<Position>)
    requires Interleaved(stops, path)
    ensures !Interleaved(stops, TrimTail(path))
  {
  }

  /** Removing the tail undoes appending one. */
  lemma TrimTailUndoesAppend(path: seq<Position>, ctrl: Position, stop: Position)
    ensures TrimTail(path + [ctrl, stop]) == path
  {
  }

  /** Removing the head undoes inserting one at index 0. */
  lemma TrimHeadUndoesInsertAtHead(path: seq<Position>, stop: Position, ctrl: Position)
    ensures TrimHead(InsertedAt(path, 0, stop, ctrl)) == path
  {
  }
}
