/**
 * Picking a game window by part of its title, and turning a window rectangle
 * (left, top, right, bottom) into a position and size (x, y, w, h). The
 * operating system's window enumeration is given as a sequence of records in
 * enumeration order.
 */
module Windows {
  import opened Wrappers
  import opened Text
  import opened Geometry

  /** A `RECT`: the window's edges in screen coordinates. */
  datatype WinRect = WinRect(left: int, top: int, right: int, bottom: int)

  /** What the enumeration reports for one top-level window. */
  datatype Window = Window(hwnd: nat, title: string, visible: bool, rect: WinRect)

  /** The dictionary the lookups return: handle, title, position and size. */
  datatype WindowInfo = WindowInfo(hwnd: nat, title: string, x: int, y: int, w: int, h: int)

  /** Position and size of a rectangle: the box starts at the left/top edge and ends at the right/bottom edge. */
  function Bounds(r: WinRect): (b: Rect)
    ensures b.x == r.left && b.y == r.top
    ensures b.x + b.w == r.right && b.y + b.h == r.bottom
  {
    Rect(r.left, r.top, r.right - r.left, r.bottom - r.top)
  }

  /** The dictionary built for a window. */
  function Info(hwnd: nat, title: string, r: WinRect): (info: WindowInfo)
    ensures info.hwnd == hwnd && info.title == title
    ensures Rect(info.x, info.y, info.w, info.h) == Bounds(r)
  {
    var b := Bounds(r);
    WindowInfo(hwnd, title, b.x, b.y, b.w, b.h)
  }

  /** A window the search considers: a non-empty title, visible, and holding the searched text. */
  predicate IsCandidate(win: Window, part: string) {
    win.title != [] && win.visible && Contains(win.title, part)
  }

  /** The candidates, as dictionaries, in enumeration order. */
  function Candidates(wins: seq<Window>, part: string): (found: seq<WindowInfo>)
    ensures |found| <= |wins|
  {
    if wins == [] then []
    else
      var last := wins[|wins| - 1];
      Candidates(wins[..|wins| - 1], part)
        + if IsCandidate(last, part) then [Info(last.hwnd, last.title, last.rect)] else []
  }

  /** The first dictionary whose title is exactly the searched text. */
  function FirstExact(found: seq<WindowInfo>, part: string): Option<WindowInfo> {
    if found == [] then None
    else if found[0].title == part then Some(found[0])
    else FirstExact(found[1..], part)
  }

  /** The selection rule: the first exact match, else the first candidate, else nothing. */
  function Select(found: seq<WindowInfo>, part: string): Option<WindowInfo> {
    if FirstExact(found, part).Some? then FirstExact(found, part)
    else if found != [] then Some(found[0])
    else None
  }

  /** A dictionary is a candidate exactly when some enumerated window passes the filter and yields it. */
  lemma {:induction false} CandidatesMeaning(wins: seq<Window>, part: string)
    ensures forall info :: info in Candidates(wins, part) <==>
      exists i :: 0 <= i < |wins| && IsCandidate(wins[i], part) && info == Info(wins[i].hwnd, wins[i].title, wins[i].rect)
  {
    if wins != [] {
      var init := wins[..|wins| - 1];
      CandidatesMeaning(init, part);
      assert forall i :: 0 <= i < |init| ==> init[i] == wins[i];
    }
  }

  /** `FirstExact` finds the earliest exact title, and finds nothing only when no title is exact. */
  lemma {:induction false} FirstExactMeaning(found: seq<WindowInfo>, part: string)
    ensures FirstExact(found, part).None? <==> forall k :: 0 <= k < |found| ==> found[k].title != part
    ensures FirstExact(found, part).Some? ==>
      exists k :: 0 <= k < |found| && found[k] == FirstExact(found, part).value && found[k].title == part
        && forall j :: 0 <= j < k ==> found[j].title != part
  {
    if found != [] && found[0].title != part {
      FirstExactMeaning(found[1..], part);
      assert forall k :: 1 <= k < |found| ==> found[k] == found[1..][k - 1];
      if FirstExact(found, part).Some? {
        var k :| 0 <= k < |found[1..]| && found[1..][k] == FirstExact(found, part).value && found[1..][k].title == part
          && forall j :: 0 <= j < k ==> found[1..][j].title != part;
        assert found[k + 1] == found[1..][k];
      }
    }
  }

  /**
   * An exact match wins over partial matches, the earliest exact one first;
   * without one the first candidate is taken; nothing only without candidates.
   */
  lemma SelectMeaning(found: seq<WindowInfo>, part: string)
    ensures Select(found, part).None? <==> found == []
    ensures Select(found, part).Some? ==> Select(found, part).value in found
    ensures (exists k :: 0 <= k < |found| && found[k].title == part) ==>
      exists k :: 0 <= k < |found| && found[k] == Select(found, part).value && found[k].title == part
        && forall j :: 0 <= j < k ==> found[j].title != part
    ensures (forall k :: 0 <= k < |found| ==> found[k].title != part) && found != [] ==>
      Select(found, part) == Some(found[0])
  {
    FirstExactMeaning(found, part);
  }

  /** The window picked is a visible, titled window holding the text; none is picked only when no window qualifies. */
  lemma SelectedIsCandidate(wins: seq<Window>, part: string)
    ensures Select(Candidates(wins, part), part).None? <==> forall i :: 0 <= i < |wins| ==> !IsCandidate(wins[i], part)
    ensures Select(Candidates(wins, part), part).Some? ==>
      exists i :: 0 <= i < |wins| && IsCandidate(wins[i], part)
        && Select(Candidates(wins, part), part).value == Info(wins[i].hwnd, wins[i].title, wins[i].rect)
  {
    var found := Candidates(wins, part);
    CandidatesMeaning(wins, part);
    SelectMeaning(found, part);
    if exists i :: 0 <= i < |wins| && IsCandidate(wins[i], part) {
      var i :| 0 <= i < |wins| && IsCandidate(wins[i], part);
      assert Info(wins[i].hwnd, wins[i].title, wins[i].rect) in found;
    }
  }

  /**
   * `find_window_by_title`: collects the candidates while walking the
   * enumeration, then returns the first exact title, else the first candidate.
   * An empty search text finds nothing.
   */
  method FindWindowByTitle(wins: seq<Window>, part: string) returns (r: Option<WindowInfo>)
    ensures part == [] ==> r == None
    ensures part != [] ==> r == Select(Candidates(wins, part), part)
  {
    if part == [] {
      return None;
    }
    var found: seq<WindowInfo> := [];
    for i := 0 to |wins|
      invariant found == Candidates(wins[..i], part)
    {
      assert wins[..i + 1][..i] == wins[..i];
      if IsCandidate(wins[i], part) {
        found := found + [Info(wins[i].hwnd, wins[i].title, wins[i].rect)];
      }
    }
    assert wins[..|wins|] == wins;
    var j := 0;
    while j < |found|
      invariant 0 <= j <= |found|
      invariant FirstExact(found, part) == FirstExact(found[j..], part)
    {
      if found[j].title == part {
        return Some(found[j]);
      }
      assert found[j..][1..] == found[j + 1..];
      j := j + 1;
    }
    if found != [] {
      r := Some(found[0]);
    } else {
      r := None;
    }
  }

  /** `get_window_rect`: position and size, or None when the rectangle query fails. */
  function GetWindowRect(query: Option<WinRect>): (r: Option<Rect>)
    ensures r.None? <==> query.None?
    ensures r.Some? ==> r.value.x + r.value.w == query.value.right && r.value.y + r.value.h == query.value.bottom
    ensures r.Some? ==> r.value.x == query.value.left && r.value.y == query.value.top
  {
    match query
    case None => None
    case Some(rect) => Some(Bounds(rect))
  }

  /**
   * `get_foreground_window_info`: None without a foreground window (handle 0);
   * a failed rectangle query leaves the zero rectangle, so position and size
   * are all 0.
   */
  function ForegroundWindowInfo(hwnd: nat, title: string, query: Option<WinRect>): (r: Option<WindowInfo>)
    ensures r.None? <==> hwnd == 0
    ensures r.Some? ==> r.value.hwnd == hwnd && r.value.title == title
    ensures r.Some? && query.None? ==> r.value.x == 0 && r.value.y == 0 && r.value.w == 0 && r.value.h == 0
    ensures r.Some? && query.Some? ==> Rect(r.value.x, r.value.y, r.value.w, r.value.h) == GetWindowRect(query).value
  {
    if hwnd == 0 then None
    else Some(Info(hwnd, title, query.GetOr(WinRect(0, 0, 0, 0))))
  }
}
