/** A metro line: its ordered stations, its waypoint path and the trains
    assigned to it, with the edits that keep those three lists in step. */
module Lines {
  import opened Sequences
  import opened Paths

  /** The shape tag of a station; the model only compares tags. */
  datatype ShapeType = ShapeType(tag: nat)

  /** One call a line makes on a station's membership bookkeeping. */
  datatype MembershipCall = AddedTo(line: Line) | RemovedFrom(line: Line)

  /** A station: a fixed position and shape, and a record of the
      membership calls lines have made on it. */
  class Station {
    const pos: Position
    const kind: ShapeType
    ghost var membership: seq<MembershipCall>

    constructor (pos: Position, kind: ShapeType)
      ensures this.pos == pos && this.kind == kind && membership == []
    {
      this.pos := pos;
      this.kind := kind;
      membership := [];
    }

    /** Registers `line` as passing through this station. */
    method AddLine(line: Line)
      modifies this
      ensures membership == old(membership) + [AddedTo(line)]
    {
      membership := membership + [AddedTo(line)];
    }

    /** Unregisters `line` from this station. */
    method RemoveLine(line: Line)
      modifies this
      ensures membership == old(membership) + [RemovedFrom(line)]
    {
      membership := membership + [RemovedFrom(line)];
    }
  }

  /** What a line sees of a train: the index of the path waypoint it heads for,
      the line it runs on, and its re-validation hook. */
  class Train {
    var nextPointIndex: int
    var line: Line?
    /** The pointer value at each call of `Verif`, oldest first. */
    ghost var revalidations: seq<int>

    constructor ()
      ensures nextPointIndex == 0 && line == null && revalidations == []
    {
      nextPointIndex := 0;
      line := null;
      revalidations := [];
    }

    method SetLine(l: Line)
      modifies this
      ensures line == l && nextPointIndex == old(nextPointIndex) && revalidations == old(revalidations)
    {
      line := l;
    }

    /** The train's re-validation of its pointer. What it does is not part of
        this model: it may change the train in any way; the model records only
        that it was called, and with which pointer. */
    method Verif()
      modifies this
      ensures revalidations == old(revalidations) + [old(nextPointIndex)]
    {
      revalidations := revalidations + [nextPointIndex];
    }
  }

  /** The positions of `stations`, in order. */
  function Positions(stations: seq<Station>): (r: seq<Position>)
    ensures |r| == |stations|
    ensures forall i :: 0 <= i < |stations| ==> r[i] == stations[i].pos
  {
    seq(|stations|, i requires 0 <= i < |stations| => stations[i].pos)
  }

  lemma PositionsAppend(stations: seq<Station>, s: Station)
    ensures Positions(stations + [s]) == Positions(stations) + [s.pos]
  {
  }

  lemma PositionsInsertAt(stations: seq<Station>, i: nat, s: Station)
    requires i <= |stations|
    ensures Positions(InsertAt(stations, i, s)) == InsertAt(Positions(stations), i, s.pos)
  {
  }

  lemma PositionsDropFirst(stations: seq<Station>)
    requires |stations| >= 1
    ensures Positions(stations[1..]) == Positions(stations)[1..]
  {
  }

  lemma PositionsDropLast(stations: seq<Station>)
    requires |stations| >= 1
    ensures Positions(stations[..|stations| - 1]) == Positions(stations)[..|stations| - 1]
  {
  }

  class Line {
    var stationList: seq<Station>
    /** Station positions at even indices, control points at odd ones. */
    var path: seq<Position>
    var trainList: seq<Train>

    /** The path interleaves the stations' positions with control points. */
    ghost predicate Valid()
      reads this
    {
      Interleaved(Positions(stationList), path)
    }

    /** A line from `a` to `b` through the control point (middleX, middleY);
        both stations are told they now belong to it. */
    constructor (a: Station, b: Station, middleX: real, middleY: real)
      modifies a, b
      ensures stationList == [a, b] && trainList == []
      ensures path == [a.pos, Position(middleX, middleY), b.pos]
      ensures Valid()
      ensures a != b ==> (a.membership == old(a.membership) + [AddedTo(this)] &&
                          b.membership == old(b.membership) + [AddedTo(this)])
      ensures a == b ==> a.membership == old(a.membership) + [AddedTo(this), AddedTo(this)]
    {
      stationList := [a, b];
      trainList := [];
      path := [a.pos, Position(middleX, middleY), b.pos];
      new;
      a.AddLine(this);
      b.AddLine(this);
    }

    /** False exactly when the first occurrence of `s` is an interior station:
        neither the first nor the last. */
    function AddAllowed(s: Station): (allowed: bool)
      reads this
      ensures !allowed <==> exists k :: 0 < k < |stationList| - 1 && stationList[k] == s && s !in stationList[..k]
    {
      var k := IndexOf(stationList, s);
      !(k != -1 && k != 0 && k != |stationList| - 1)
    }

    /** Extends the line at its tail. No waypoint moves, so no pointer changes,
        and the station is not told about the line. */
    method AddStation(station: Station, middleX: real, middleY: real)
      modifies this
      ensures path == old(path) + [Position(middleX, middleY), station.pos]
      ensures stationList == old(stationList) + [station]
      ensures trainList == old(trainList)
      ensures old(Valid()) ==> Valid()
    {
      ghost var wasValid := Valid();
      ghost var stations0, path0 := stationList, path;
      path := path + [Position(middleX, middleY)];
      path := path + [station.pos];
      stationList := stationList + [station];
      if wasValid {
        PositionsAppend(stations0, station);
        AppendKeepsInterleaving(Positions(stations0), path0, Position(middleX, middleY), station.pos);
        assert path == path0 + [Position(middleX, middleY), station.pos];
      }
    }

    /** Inserts `station` at station index `index`, but the position and the
        control point at PATH index `index`; every train moves its pointer on
        by 2. The interleaving survives for `index == 0` only. */
    method AddStationAt(index: int, station: Station, middleX: real, middleY: real)
      requires 0 <= index <= |path| && index <= |stationList|
      requires NoDuplicates(trainList)
      modifies this, station, set t | t in trainList
      ensures path == InsertedAt(old(path), index, station.pos, Position(middleX, middleY))
      ensures stationList == InsertAt(old(stationList), index, station)
      ensures trainList == old(trainList)
      ensures station.membership == old(station.membership) + [AddedTo(this)]
      ensures forall t :: t in trainList ==>
                t.nextPointIndex == old(t.nextPointIndex) + 2 &&
                t.line == old(t.line) && t.revalidations == old(t.revalidations)
      ensures old(Valid()) && index == 0 ==> Valid()
    {
      ghost var wasValid := Valid();
      ghost var stations0, path0 := stationList, path;
      path := InsertAt(path, index, Position(middleX, middleY));
      path := InsertAt(path, index, station.pos);
      stationList := InsertAt(stationList, index, station);
      InsertTwiceIsInsertedAt(path0, index, station.pos, Position(middleX, middleY));
      station.AddLine(this);
      var trains := trainList;
      for i := 0 to |trains|
        modifies set t | t in trains
        invariant forall j :: 0 <= j < i ==> trains[j].nextPointIndex == old(trains[j].nextPointIndex) + 2
        invariant forall j :: i <= j < |trains| ==> trains[j].nextPointIndex == old(trains[j].nextPointIndex)
        invariant forall j :: 0 <= j < |trains| ==>
                    trains[j].line == old(trains[j].line) && trains[j].revalidations == old(trains[j].revalidations)
      {
        trains[i].nextPointIndex := trains[i].nextPointIndex + 2;
      }
      if wasValid && index == 0 {
        PositionsInsertAt(stations0, 0, station);
        InsertAtHeadKeepsInterleaving(Positions(stations0), path0, station.pos, Position(middleX, middleY));
      }
    }

    /** Splits the segment between stations `index - 1` and `index`: its control
        point becomes (middleX, middleY), the station's position and
        (middleX2, middleY2). Only trains heading past the old control point
        move on by 2, and only they re-validate. */
    method AddStationFromLink(index: int, station: Station, middleX: real, middleY: real, middleX2: real, middleY2: real)
      requires 1 <= index <= |stationList| && 2 * index - 1 < |path|
      requires NoDuplicates(trainList)
      modifies this, set t | t in trainList
      ensures stationList == InsertAt(old(stationList), index, station)
      ensures path == SplitSegment(old(path), index, Position(middleX, middleY), station.pos, Position(middleX2, middleY2))
      ensures trainList == old(trainList)
      ensures forall t :: t in trainList && old(t.nextPointIndex) > 2 * index - 1 ==>
                t.revalidations == old(t.revalidations) + [old(t.nextPointIndex) + 2]
      ensures forall t :: t in trainList && old(t.nextPointIndex) <= 2 * index - 1 ==>
                t.nextPointIndex == old(t.nextPointIndex) && t.line == old(t.line) &&
                t.revalidations == old(t.revalidations)
      ensures old(Valid()) ==> Valid()
    {
      ghost var wasValid := Valid();
      ghost var stations0, path0 := stationList, path;
      stationList := InsertAt(stationList, index, station);
      var indexToAdd := (index - 1) * 2 + 1;
      path := ReplaceControlPoint(path, index, Position(middleX, middleY), station.pos, Position(middleX2, middleY2));
      ShiftTrainsPast(trainList, indexToAdd);
      if wasValid {
        PositionsInsertAt(stations0, index, station);
        SplitSegmentKeepsInterleaving(Positions(stations0), path0, index, Position(middleX, middleY), station.pos, Position(middleX2, middleY2));
      }
    }

    /** The pass of `AddStationFromLink` over the trains: each train heading
        past waypoint `k` moves its pointer on by 2 and re-validates. */
    static method ShiftTrainsPast(trains: seq<Train>, k: int)
      requires NoDuplicates(trains)
      modifies set t | t in trains
      ensures forall t :: t in trains && old(t.nextPointIndex) > k ==>
                t.revalidations == old(t.revalidations) + [old(t.nextPointIndex) + 2]
      ensures forall t :: t in trains && old(t.nextPointIndex) <= k ==>
                t.nextPointIndex == old(t.nextPointIndex) && t.line == old(t.line) &&
                t.revalidations == old(t.revalidations)
    {
      for i := 0 to |trains|
        invariant forall j :: 0 <= j < i && old(trains[j].nextPointIndex) > k ==>
                    trains[j].revalidations == old(trains[j].revalidations) + [old(trains[j].nextPointIndex) + 2]
        invariant forall j :: 0 <= j < i && old(trains[j].nextPointIndex) <= k ==>
                    trains[j].nextPointIndex == old(trains[j].nextPointIndex) && trains[j].line == old(trains[j].line) &&
                    trains[j].revalidations == old(trains[j].revalidations)
        invariant forall j :: i <= j < |trains| ==>
                    trains[j].nextPointIndex == old(trains[j].nextPointIndex) && trains[j].line == old(trains[j].line) &&
                    trains[j].revalidations == old(trains[j].revalidations)
      {
        var t := trains[i];
        if t.nextPointIndex > k {
          t.nextPointIndex := t.nextPointIndex + 2;
          t.Verif();
        }
      }
    }

    /** The line runs in a circle: at least two stations, and the first
        station is the last one. A one-station line is never a loop. */
    function IsLoop(): (loop: bool)
      reads this
      requires |stationList| >= 1
      ensures loop <==> |stationList| >= 2 && stationList[0] == stationList[|stationList| - 1]
      ensures |stationList| == 1 ==> !loop
    {
      stationList[0] == stationList[|stationList| - 1] && |stationList| != 1
    }
    /** Removes an end station. On a loop it refuses and changes nothing, since
        either end could be meant. Otherwise the station first drops the line;
        the first occurrence of the station leaves the station list, and two
        waypoints (or the one left) leave the head of the path when that
        occurrence is the head, the tail of the path in every other case. After
        a head removal every pointer moves back by 2; then each train that
        runs on some line re-validates. The interleaving survives when the
        station is the first or the last one of two or more. */
    method RemoveStation(station: Station) returns (removed: bool)
      requires |stationList| >= 1
      requires !IsLoop() ==> |path| >= 1
      requires NoDuplicates(trainList)
      modifies this, station, set t | t in trainList
      ensures removed == !old(IsLoop())
      ensures !removed ==> unchanged(this) && unchanged(station) && forall t :: t in trainList ==> unchanged(t)
      ensures removed ==> station.membership == old(station.membership) + [RemovedFrom(this)]
      ensures removed ==> stationList == RemoveFirst(old(stationList), station)
      ensures removed ==> path == if IndexOf(old(stationList), station) == 0 then TrimHead(old(path)) else TrimTail(old(path))
      ensures trainList == old(trainList)
      ensures removed ==> forall t :: t in trainList ==>
                var shifted := if IndexOf(old(stationList), station) == 0 then old(t.nextPointIndex) - 2 else old(t.nextPointIndex);
                if old(t.line) != null then t.revalidations == old(t.revalidations) + [shifted]
                else t.nextPointIndex == shifted && t.line == null && t.revalidations == old(t.revalidations)
      ensures old(Valid()) && removed && |old(stationList)| >= 2 &&
              (IndexOf(old(stationList), station) == 0 || IndexOf(old(stationList), station) == |old(stationList)| - 1)
              ==> Valid()
      ensures old(Valid()) && removed && station !in old(stationList) ==> !Valid()
    {
      if IsLoop() {
        return false;
      }
      ghost var wasValid := Valid();
      ghost var stations0, path0 := stationList, path;
      station.RemoveLine(this);
      var index := IndexOf(stationList, station);
      stationList := RemoveFirst(stationList, station);
      path := TrimEnd(path, index == 0);
      ReconcileAfterRemoval(trainList, index == 0);
      removed := true;
      if wasValid && |stations0| >= 2 && (index == 0 || index == |stations0| - 1) {
        if index == 0 {
          assert stationList == stations0[1..];
          PositionsDropFirst(stations0);
          TrimHeadKeepsInterleaving(Positions(stations0), path0);
        } else {
          assert stationList == stations0[..|stations0| - 1];
          PositionsDropLast(stations0);
          TrimTailKeepsInterleaving(Positions(stations0), path0);
        }
      }
      if wasValid && station !in stations0 {
        TrimTailAloneBreaksInterleaving(Positions(stations0), path0);
      }
    }

    /** The pass of `RemoveStation` over the trains: after a head removal each
        pointer moves back by 2; then each train that runs on some line
        re-validates. */
    static method ReconcileAfterRemoval(trains: seq<Train>, headRemoved: bool)
      requires NoDuplicates(trains)
      modifies set t | t in trains
      ensures forall t :: t in trains ==>
                var shifted := if headRemoved then old(t.nextPointIndex) - 2 else old(t.nextPointIndex);
                if old(t.line) != null then t.revalidations == old(t.revalidations) + [shifted]
                else t.nextPointIndex == shifted && t.line == null && t.revalidations == old(t.revalidations)
    {
      for i := 0 to |trains|
        invariant forall j :: 0 <= j < i ==>
                    var shifted := if headRemoved then old(trains[j].nextPointIndex) - 2 else old(trains[j].nextPointIndex);
                    if old(trains[j].line) != null then trains[j].revalidations == old(trains[j].revalidations) + [shifted]
                    else trains[j].nextPointIndex == shifted && trains[j].line == null && trains[j].revalidations == old(trains[j].revalidations)
        invariant forall j :: i <= j < |trains| ==>
                    trains[j].nextPointIndex == old(trains[j].nextPointIndex) && trains[j].line == old(trains[j].line) &&
                    trains[j].revalidations == old(trains[j].revalidations)
      {
        var t := trains[i];
        if headRemoved {
          t.nextPointIndex := t.nextPointIndex - 2;
        }
        if t.line != null {
          t.Verif();
        }
      }
    }

    /** Removes the first (when `first`) or the last entry of a loop's station
        list and two waypoints (or the one left) from the same end of the path.
        No pointer moves and no train re-validates; `loop` is not used. */
    method RemoveLoop(loop: Station, first: bool)
      requires |stationList| >= 1 && |path| >= 1
      modifies this
      ensures stationList == if first then old(stationList)[1..] else old(stationList)[..|old(stationList)| - 1]
      ensures path == if first then TrimHead(old(path)) else TrimTail(old(path))
      ensures trainList == old(trainList)
      ensures old(Valid()) && |old(stationList)| >= 2 ==> Valid()
    {
      ghost var wasValid := Valid();
      ghost var stations0, path0 := stationList, path;
      if first {
        stationList := RemoveAt(stationList, 0);
      } else {
        stationList := RemoveAt(stationList, |stationList| - 1);
      }
      path := TrimEnd(path, first);
      if wasValid && |stations0| >= 2 {
        if first {
          PositionsDropFirst(stations0);
          TrimHeadKeepsInterleaving(Positions(stations0), path0);
        } else {
          PositionsDropLast(stations0);
          TrimTailKeepsInterleaving(Positions(stations0), path0);
        }
      }
    }

    /** Assigns `train` to this line and points it back at the line. */
    method AddTrain(train: Train)
      modifies this, train
      ensures trainList == old(trainList) + [train]
      ensures stationList == old(stationList) && path == old(path)
      ensures train.line == this && train.nextPointIndex == old(train.nextPointIndex)
      ensures train.revalidations == old(train.revalidations)
    {
      trainList := trainList + [train];
      train.SetLine(this);
    }

    /** Drops the first occurrence of `train`; the train keeps its pointer and its line. */
    method RemoveTrain(train: Train)
      modifies this
      ensures trainList == RemoveFirst(old(trainList), train)
      ensures stationList == old(stationList) && path == old(path)
    {
      trainList := RemoveFirst(trainList, train);
    }

    /** Some station of the line carries shape `s`. */
    method ContainsShape(s: ShapeType) returns (found: bool)
      ensures found <==> exists st :: st in stationList && st.kind == s
    {
      for i := 0 to |stationList|
        invariant forall j :: 0 <= j < i ==> stationList[j].kind != s
      {
        if stationList[i].kind == s {
          return true;
        }
      }
      return false;
    }
  }
}
