/** The admin dashboard's pure helpers and zoom state (frontend/admin.js):
    HTML escaping of the values it writes into the page, the student-list
    filter, and the photo viewer's zoom level. */
module AdminPanel {
  import opened Common
  import opened StudentTable

  // ------------------------------------------------------------ escaping

  /** The replacement `escapeHtml` uses for one character. */
  function EscapeChar(c: char): string {
    match c
    case '&' => "&amp;"
    case '<' => "&lt;"
    case '>' => "&gt;"
    case '"' => "&quot;"
    case '\'' => "&#039;"
    case _ => [c]
  }

  /** `escapeHtml`: each of `& < > " '` replaced by its entity, every other
      character kept. */
  function EscapeHtml(text: string): string {
    if text == [] then [] else EscapeChar(text[0]) + EscapeHtml(text[1..])
  }

  predicate Special(c: char) {
    c == '&' || c == '<' || c == '>' || c == '"' || c == '\''
  }

  /** Reading the five entities back; any other character stands for
      itself. */
  function Unescape(s: string): string
    decreases |s|
  {
    if s == [] then []
    else if "&amp;" <= s then "&" + Unescape(s[5..])
    else if "&lt;" <= s then "<" + Unescape(s[4..])
    else if "&gt;" <= s then ">" + Unescape(s[4..])
    else if "&quot;" <= s then "\"" + Unescape(s[6..])
    else if "&#039;" <= s then "'" + Unescape(s[6..])
    else [s[0]] + Unescape(s[1..])
  }

  /** Escaping works character by character. */
  lemma {:induction false} EscapeAppend(a: string, b: string)
    ensures EscapeHtml(a + b) == EscapeHtml(a) + EscapeHtml(b)
  {
    if a != [] {
      assert (a + b)[1..] == a[1..] + b;
      EscapeAppend(a[1..], b);
    } else {
      assert a + b == b;
    }
  }

  /** The output holds no `<`, `>`, `"` or `'`. */
  lemma {:induction false} EscapedIsInert(text: string)
    ensures forall k :: 0 <= k < |EscapeHtml(text)| ==>
      EscapeHtml(text)[k] !in {'<', '>', '"', '\''}
  {
    if text != [] {
      EscapedIsInert(text[1..]);
      var e := EscapeChar(text[0]);
      var rest := EscapeHtml(text[1..]);
      assert EscapeHtml(text) == e + rest;
      forall k | 0 <= k < |e + rest|
        ensures (e + rest)[k] !in {'<', '>', '"', '\''}
      {
        if k >= |e| {
          assert (e + rest)[k] == rest[k - |e|];
        }
      }
    }
  }

  /** Text without the five special characters is left as it is. */
  lemma {:induction false} EscapeIdentity(text: string)
    requires forall k :: 0 <= k < |text| ==> !Special(text[k])
    ensures EscapeHtml(text) == text
  {
    if text != [] {
      EscapeIdentity(text[1..]);
      assert [text[0]] + text[1..] == text;
    }
  }

  /** One escaped character, followed by anything escaped, reads back as
      that character. */
  lemma {:induction false} UnescapeChar(c: char, rest: string)
    ensures Unescape(EscapeChar(c) + EscapeHtml(rest)) == [c] + Unescape(EscapeHtml(rest))
  {
    var r := EscapeHtml(rest);
    var s := EscapeChar(c) + r;
    if c == '&' {
      assert "&amp;" <= s && s[5..] == r;
    } else if c == '<' {
      assert s[1] == 'l';
      assert !("&amp;" <= s) && "&lt;" <= s && s[4..] == r;
    } else if c == '>' {
      assert s[1] == 'g';
      assert !("&amp;" <= s) && !("&lt;" <= s) && "&gt;" <= s && s[4..] == r;
    } else if c == '"' {
      assert s[1] == 'q';
      assert !("&amp;" <= s) && !("&lt;" <= s) && !("&gt;" <= s) && "&quot;" <= s && s[6..] == r;
    } else if c == '\'' {
      assert s[1] == '#';
      assert !("&amp;" <= s) && !("&lt;" <= s) && !("&gt;" <= s) && !("&quot;" <= s);
      assert "&#039;" <= s && s[6..] == r;
    } else {
      assert s[0] == c && s[1..] == r;
    }
  }

  /** Nothing is lost: unescaping the output gives back the input. */
  lemma {:induction false} EscapeRoundTrip(text: string)
    ensures Unescape(EscapeHtml(text)) == text
  {
    if text != [] {
      UnescapeChar(text[0], text[1..]);
      EscapeRoundTrip(text[1..]);
      assert [text[0]] + text[1..] == text;
    }
  }

  // ------------------------------------------------------------- filters

  /** The four filter inputs; the empty string means the filter is off. */
  datatype Filters = Filters(search: string, post: string, status: string, batch: string)

  const NoFilters := Filters("", "", "", "")

  /** The lowercased search text occurs in the lowercased name, e-mail or
      student number. */
  predicate MatchSearch(s: Student, search: string) {
    var q := Lower(search);
    q == [] || Includes(Lower(s.full_name), q) || Includes(Lower(s.email), q) || Includes(Lower(s.ID_no), q)
  }

  predicate MatchPost(s: Student, post: string) {
    post == [] || s.apply_for_post == post
  }

  predicate MatchStatus(s: Student, status: string) {
    status == [] || (status == "selected" && s.selected) || (status == "pending" && !s.selected)
  }

  /** A student without a batch (or with an empty one) never matches a
      batch filter. */
  predicate MatchBatch(s: Student, batch: string) {
    batch == [] || (s.batch.Some? && s.batch.value != [] && s.batch.value == batch)
  }

  predicate Matches(s: Student, f: Filters) {
    MatchSearch(s, f.search) && MatchPost(s, f.post) && MatchStatus(s, f.status) && MatchBatch(s, f.batch)
  }

  /** `filterStudents` on the loaded list. */
  function FilterStudents(all: seq<Student>, f: Filters): seq<Student> {
    Filter(all, (s: Student) => Matches(s, f))
  }

  /** The result keeps the loaded order, holds exactly the students every
      active filter matches, and with no filter set is the whole list. */
  lemma FilterStudentsSpec(all: seq<Student>, f: Filters)
    ensures IsSubsequence(FilterStudents(all, f), all)
    ensures forall s :: s in FilterStudents(all, f) <==> s in all && Matches(s, f)
    ensures f == NoFilters ==> FilterStudents(all, f) == all
  {
    FilterIsSubsequence(all, (s: Student) => Matches(s, f));
    if f == NoFilters {
      FilterAll(all, (s: Student) => Matches(s, f));
    }
  }

  /** `selected` and `pending` split the list; any other status keeps
      nobody. */
  lemma StatusFilter(all: seq<Student>, f: Filters)
    ensures f.status == "selected" ==> forall s :: s in FilterStudents(all, f) ==> s.selected
    ensures f.status == "pending" ==> forall s :: s in FilterStudents(all, f) ==> !s.selected
    ensures f.status !in {"", "selected", "pending"} ==> FilterStudents(all, f) == []
  {
    if f.status !in {"", "selected", "pending"} {
      FilterNone(all, (s: Student) => Matches(s, f));
    }
  }

  // ---------------------------------------------------------------- zoom

  const MinZoom := 50
  const MaxZoom := 300
  const ZoomStep := 20
  const DefaultZoom := 100

  /** `zoomIn`: one step up while below the maximum. */
  function ZoomedIn(z: int): int {
    if z < MaxZoom then z + ZoomStep else z
  }

  /** `zoomOut`: one step down while above the minimum; the guard is on the
      level before the step. */
  function ZoomedOut(z: int): int {
    if z > MinZoom then z - ZoomStep else z
  }

  /** The levels reachable from 100: multiples of 20 from 40 to 300. */
  predicate ZoomInv(z: int) {
    z % ZoomStep == 0 && 40 <= z <= MaxZoom
  }

  datatype ZoomAction = In | Out | Reset

  function ZoomAfter(z: int, a: ZoomAction): int {
    match a
    case In => ZoomedIn(z)
    case Out => ZoomedOut(z)
    case Reset => DefaultZoom
  }

  function ZoomRun(z: int, actions: seq<ZoomAction>): int
    decreases |actions|
  {
    if actions == [] then z else ZoomRun(ZoomAfter(z, actions[0]), actions[1..])
  }

  lemma ZoomStepKeepsInv(z: int, a: ZoomAction)
    requires ZoomInv(z)
    ensures ZoomInv(ZoomAfter(z, a))
  {
  }

  /** Whatever buttons are pressed, the level stays a multiple of 20 between
      40 and 300: never above the maximum. */
  lemma {:induction false} ZoomRunKeepsInv(z: int, actions: seq<ZoomAction>)
    requires ZoomInv(z)
    ensures ZoomInv(ZoomRun(z, actions))
    decreases |actions|
  {
    if actions != [] {
      ZoomStepKeepsInv(z, actions[0]);
      ZoomRunKeepsInv(ZoomAfter(z, actions[0]), actions[1..]);
    }
  }

  /** Three steps out from 100 reach 40, below the minimum of 50. */
  lemma ZoomOutPassesMinimum()
    ensures ZoomRun(DefaultZoom, [Out, Out, Out]) == 40 < MinZoom
    ensures ZoomRun(DefaultZoom, [Out, Out, Out, Out]) == 40
  {
    assert [Out, Out, Out][1..] == [Out, Out];
    assert [Out, Out][1..] == [Out];
    assert [Out, Out, Out, Out][1..] == [Out, Out, Out];
  }

  /** A zoom-out that stops at the minimum, checking the level after the
      step; the viewer below uses it in place of `ZoomedOut`. */
  function ClampedZoomedOut(z: int): (r: int)
    ensures z >= MinZoom ==> r >= MinZoom
    ensures r <= z
  {
    if z - ZoomStep >= MinZoom then z - ZoomStep else z
  }

  /** The levels the corrected viewer allows: multiples of 20 from 60 to
      300 (50 is not a multiple of the step). */
  predicate ZoomBounds(z: int) {
    z % ZoomStep == 0 && MinZoom <= z <= MaxZoom
  }

  /** With that zoom-out, the level stays within the two bounds. */
  lemma ClampedZoomStaysInBounds(z: int, zoomIn: bool)
    requires ZoomBounds(z)
    ensures var r := if zoomIn then ZoomedIn(z) else ClampedZoomedOut(z);
      ZoomBounds(r)
  {
  }

  /** The photo viewer's zoom level, with the corrected zoom-out. */
  class ZoomControl {
    var currentZoom: int

    ghost predicate Valid()
      reads this
    {
      ZoomBounds(currentZoom)
    }

    constructor ()
      ensures currentZoom == DefaultZoom && Valid()
    {
      currentZoom := DefaultZoom;
    }

    method ZoomIn()
      requires Valid()
      modifies this
      ensures currentZoom == ZoomedIn(old(currentZoom)) && Valid()
    {
      if currentZoom < MaxZoom {
        currentZoom := currentZoom + ZoomStep;
      }
    }

    method ZoomOut()
      requires Valid()
      modifies this
      ensures currentZoom == ClampedZoomedOut(old(currentZoom)) && Valid()
    {
      if currentZoom - ZoomStep >= MinZoom {
        currentZoom := currentZoom - ZoomStep;
      }
    }

    method ResetZoom()
      modifies this
      ensures currentZoom == DefaultZoom && Valid()
    {
      currentZoom := DefaultZoom;
    }
  }
}
