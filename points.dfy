/** The list of clicked points: a left click appends its point unless it is already there. */
module Points {
  import opened Geometry

  /** The list after a click at p: unchanged if p is already present, otherwise p at the end. */
  function WithPoint(s: seq<Point>, p: Point): (r: seq<Point>)
    ensures p in r
    ensures forall q :: q in r <==> q in s || q == p
    ensures |r| == if p in s then |s| else |s| + 1
    ensures r[..|s|] == s
    ensures NoDuplicates(s) ==> NoDuplicates(r)
  {
    if p in s then s else s + [p]
  }

  /** A second click at the same point changes nothing. */
  lemma WithPointIdempotent(s: seq<Point>, p: Point)
    ensures WithPoint(WithPoint(s, p), p) == WithPoint(s, p)
  {
  }

  /** The list after the clicks of one frame, taken in event order. */
  function AddAll(s: seq<Point>, clicks: seq<Point>): seq<Point>
    decreases clicks
  {
    if clicks == [] then s else AddAll(WithPoint(s, clicks[0]), clicks[1..])
  }

  /** The clicks of a frame keep the list duplicate-free, keep what was there in its
      order, and add at most one point per click. */
  lemma {:induction false} AddAllGrowth(s: seq<Point>, clicks: seq<Point>)
    ensures NoDuplicates(s) ==> NoDuplicates(AddAll(s, clicks))
    ensures |s| <= |AddAll(s, clicks)| <= |s| + |clicks|
    ensures AddAll(s, clicks)[..|s|] == s
    decreases clicks
  {
    if clicks != [] {
      var s' := WithPoint(s, clicks[0]);
      AddAllGrowth(s', clicks[1..]);
      var r := AddAll(s', clicks[1..]);
      assert r[..|s|] == r[..|s'|][..|s|];
    }
  }

  /** After the clicks of a frame the list holds exactly what it held before and the clicked points. */
  lemma {:induction false} AddAllMembers(s: seq<Point>, clicks: seq<Point>)
    ensures forall q :: q in AddAll(s, clicks) <==> q in s || q in clicks
    decreases clicks
  {
    if clicks != [] {
      AddAllMembers(WithPoint(s, clicks[0]), clicks[1..]);
      assert clicks == [clicks[0]] + clicks[1..];
    }
  }

  /** What one pass of the click handler leaves: the list, or a crash. */
  datatype Handled = Handled(points: seq<Point>) | Crashed

  /** The click handler as written: appending through `data = data.append(point)` rebinds the
      handler's name for the list to the None that append returns, so any later left click in
      the same pass fails on its membership test. rebound records that this has happened. */
  function HandleClicksAsWritten(s: seq<Point>, clicks: seq<Point>, rebound: bool): (r: Handled)
    decreases clicks
  {
    if clicks == [] then Handled(s)
    else if rebound then Crashed
    else if clicks[0] in s then HandleClicksAsWritten(s, clicks[1..], false)
    else HandleClicksAsWritten(s + [clicks[0]], clicks[1..], true)
  }

  /** The handler as written survives a pass exactly when every click but the last is already
      in the list, and then it leaves the list that AddAll describes. */
  lemma {:induction false} AsWrittenSurvivesIff(s: seq<Point>, clicks: seq<Point>)
    ensures HandleClicksAsWritten(s, clicks, false).Handled?
        <==> forall i :: 0 <= i < |clicks| - 1 ==> clicks[i] in s
    ensures HandleClicksAsWritten(s, clicks, false).Handled?
        ==> HandleClicksAsWritten(s, clicks, false).points == AddAll(s, clicks)
    decreases clicks
  {
    if clicks != [] {
      var t := clicks[1..];
      if clicks[0] in s {
        AsWrittenSurvivesIff(s, t);
        assert forall i :: 0 <= i < |t| - 1 ==> t[i] == clicks[i + 1];
        if forall i :: 0 <= i < |t| - 1 ==> t[i] in s {
          forall i | 0 <= i < |clicks| - 1
            ensures clicks[i] in s
          {
            if i > 0 { assert clicks[i] == t[i - 1]; }
          }
        }
      } else if t != [] {
        assert HandleClicksAsWritten(s, clicks, false) == Crashed;
      }
    }
  }

  /** Every left click of one pass reads the same cursor position, so a pass sees one point,
      repeated. Two such clicks at a new point crash the handler as written, where the
      intended handler appends the point once. */
  lemma AsWrittenCrashesOnRepeatedClick(s: seq<Point>, p: Point)
    requires p !in s
    ensures HandleClicksAsWritten(s, [p, p], false) == Crashed
    ensures AddAll(s, [p, p]) == s + [p]
  {
    assert [p, p][1..] == [p];
    assert [p][1..] == [];
    assert AddAll(s, [p, p]) == AddAll(s + [p], [p]);
    assert p in s + [p];
    assert AddAll(s + [p], [p]) == AddAll(s + [p], []);
  }

  /** Clicks that all land on one point add it at most once. */
  lemma {:induction false} AddAllSamePoint(s: seq<Point>, p: Point, clicks: seq<Point>)
    requires forall i :: 0 <= i < |clicks| ==> clicks[i] == p
    ensures AddAll(s, clicks) == if clicks == [] then s else WithPoint(s, p)
    decreases clicks
  {
    if clicks != [] {
      var t := clicks[1..];
      forall i | 0 <= i < |t|
        ensures t[i] == p
      {
        assert t[i] == clicks[i + 1];
      }
      AddAllSamePoint(WithPoint(s, p), p, t);
      WithPointIdempotent(s, p);
    }
  }

  /** The point list that the frame loop owns and the click handler mutates in place. */
  class PointStore {
    var points: seq<Point>

    ghost predicate Valid()
      reads this
    {
      NoDuplicates(points)
    }

    constructor ()
      ensures Valid() && points == []
    {
      points := [];
    }

    /** The left-click branch of the click handler: append p unless it is present. */
    method Add(p: Point)
      requires Valid()
      modifies this
      ensures Valid()
      ensures points == WithPoint(old(points), p)
    {
      if p !in points {
        points := points + [p];
      }
    }
  }
}
