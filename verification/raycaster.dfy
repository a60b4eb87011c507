/**
 * `20-raycaster/src/script.js`: hover and click handling over three spheres.
 * The raycast itself is three.js's: each frame's intersection list is an
 * input, ordered nearest first.  A frame recolours the tested objects,
 * updates `currentIntersect` and logs "entered" or "left" only when it
 * switches between null and non-null; a click logs one line chosen by the
 * identity of the hovered object.
 */
module Raycaster {
  import opened Options

  /** Object identity: the three spheres the script creates, or any other object. */
  datatype SceneObject = Object1 | Object2 | Object3 | OtherObject(id: nat)

  /** One entry of `intersectObjects`' result, reduced to the `object` field the script reads. */
  datatype Intersection = Intersection(obj: SceneObject)

  /** The console lines the script logs. */
  datatype Message =
    | MouseEntered      // "Mouse has entered a sphere"
    | MouseLeft         // "Mouse has left a sphere"
    | ClickSphere1      // "Click on a sphere 1"
    | ClickSphere2      // "Click on a sphere 2"
    | ClickSphere3      // "Click on a sphere 3"
    | Banana            // the default branch

  const Red := 0xff0000
  const Blue := 0x0000ff

  /** The objects tested each frame, `[object1, object2, object3]`. */
  const Tested := [Object1, Object2, Object3]

  predicate Hit(o: SceneObject, intersects: seq<Intersection>)
  {
    exists i :: 0 <= i < |intersects| && intersects[i].obj == o
  }

  /**
   * The hover transition of one frame: the new `currentIntersect` and what
   * it logs.
   */
  function Hover(current: Option<Intersection>, intersects: seq<Intersection>)
    : (r: (Option<Intersection>, seq<Message>))
    ensures |intersects| > 0 ==> r.0 == Some(intersects[0])
    ensures |intersects| == 0 ==> r.0 == None
    ensures |r.1| <= 1
    ensures MouseEntered in r.1 <==> current.None? && r.0.Some?
    ensures MouseLeft in r.1 <==> current.Some? && r.0.None?
    ensures forall m :: m in r.1 ==> m == MouseEntered || m == MouseLeft
  {
    if |intersects| != 0 then
      var log := if current.None? then [MouseEntered] else [];
      (Some(intersects[0]), log)
    else
      var log := if current.Some? then [MouseLeft] else [];
      (None, log)
  }

  /**
   * The two colour loops of `tick`: every tested object red, then every
   * intersected object blue.  `colors` maps an object to its material colour.
   */
  method Recolour(colors: map<SceneObject, int>, tested: seq<SceneObject>, intersects: seq<Intersection>)
    returns (r: map<SceneObject, int>)
    ensures forall o :: o in r <==> o in colors || o in tested || Hit(o, intersects)
    ensures forall o :: Hit(o, intersects) ==> o in r && r[o] == Blue
    ensures forall o :: o in tested && !Hit(o, intersects) ==> r[o] == Red
    ensures forall o :: o in colors && o !in tested && !Hit(o, intersects) ==> r[o] == colors[o]
  {
    r := colors;
    var i := 0;
    while i < |tested|
      invariant 0 <= i <= |tested|
      invariant forall o :: o in r <==> o in colors || o in tested[..i]
      invariant forall o :: o in tested[..i] ==> r[o] == Red
      invariant forall o :: o in colors && o !in tested[..i] ==> r[o] == colors[o]
    {
      r := r[tested[i] := Red];
      assert tested[..i + 1] == tested[..i] + [tested[i]];
      i := i + 1;
    }
    assert tested[..i] == tested;
    var j := 0;
    while j < |intersects|
      invariant 0 <= j <= |intersects|
      invariant forall o :: o in r <==> o in colors || o in tested || Hit(o, intersects[..j])
      invariant forall o :: Hit(o, intersects[..j]) ==> r[o] == Blue
      invariant forall o :: o in tested && !Hit(o, intersects[..j]) ==> r[o] == Red
      invariant forall o :: o in colors && o !in tested && !Hit(o, intersects[..j]) ==> r[o] == colors[o]
    {
      var o := intersects[j].obj;
      r := r[o := Blue];
      HitExtend(intersects, j);
      j := j + 1;
    }
    assert intersects[..j] == intersects;
  }

  /** Extending a prefix of the intersection list by one entry adds exactly that entry's object. */
  lemma HitExtend(intersects: seq<Intersection>, j: nat)
    requires j < |intersects|
    ensures forall p :: Hit(p, intersects[..j + 1]) <==> Hit(p, intersects[..j]) || p == intersects[j].obj
  {
  }

  /** The hover state the script keeps between frames. */
  datatype State = State(current: Option<Intersection>, colors: map<SceneObject, int>)

  /**
   * One call of `tick` after the raycast: the tested spheres are red unless
   * hit, hit objects are blue, and `currentIntersect` follows the nearest hit.
   */
  method Frame(s: State, intersects: seq<Intersection>) returns (s': State, log: seq<Message>)
    ensures forall o :: o in Tested ==> o in s'.colors && s'.colors[o] == (if Hit(o, intersects) then Blue else Red)
    ensures (s'.current, log) == Hover(s.current, intersects)
  {
    var colors := Recolour(s.colors, Tested, intersects);
    var (current, messages) := Hover(s.current, intersects);
    s' := State(current, colors);
    log := messages;
  }

  /**
   * The click listener: nothing when nothing is hovered, otherwise exactly
   * one line, chosen by the hovered object's identity.
   */
  function Click(current: Option<Intersection>): (r: Option<Message>)
    ensures r.None? <==> current.None?
    ensures r == Some(ClickSphere1) <==> current.Some? && current.value.obj == Object1
    ensures r == Some(ClickSphere2) <==> current.Some? && current.value.obj == Object2
    ensures r == Some(ClickSphere3) <==> current.Some? && current.value.obj == Object3
    ensures r == Some(Banana) <==> current.Some? && current.value.obj.OtherObject?
  {
    match current
    case None => None
    case Some(hit) =>
      match hit.obj
      case Object1 => Some(ClickSphere1)
      case Object2 => Some(ClickSphere2)
      case Object3 => Some(ClickSphere3)
      case OtherObject(_) => Some(Banana)
  }

  /** The hover transitions of a run of frames: the final `currentIntersect` and the whole log. */
  function HoverRun(current: Option<Intersection>, frames: seq<seq<Intersection>>)
    : (r: (Option<Intersection>, seq<Message>))
    ensures |r.1| <= |frames|
    ensures frames == [] ==> r.0 == current
    ensures frames != [] && frames[|frames| - 1] == [] ==> r.0 == None
    ensures frames != [] && frames[|frames| - 1] != [] ==> r.0 == Some(frames[|frames| - 1][0])
    decreases |frames|
  {
    if frames == [] then (current, [])
    else
      var (c1, log1) := Hover(current, frames[0]);
      var (c2, log2) := HoverRun(c1, frames[1..]);
      assert |frames| > 1 ==> frames[1..][|frames| - 2] == frames[|frames| - 1];
      (c2, log1 + log2)
  }

  /**
   * A click right after a frame reports on that frame's nearest hit:
   * nothing when the frame hit nothing, otherwise the line for the first
   * intersected object, "Banana" exactly when that object is not a sphere.
   */
  lemma ClickAfterFrame(current: Option<Intersection>, intersects: seq<Intersection>)
    ensures var r := Click(Hover(current, intersects).0);
      && (r.None? <==> intersects == [])
      && (intersects != [] ==>
            && (r == Some(Banana) <==> intersects[0].obj.OtherObject?)
            && (r == Some(ClickSphere1) <==> intersects[0].obj == Object1)
            && (r == Some(ClickSphere2) <==> intersects[0].obj == Object2)
            && (r == Some(ClickSphere3) <==> intersects[0].obj == Object3))
  {
  }

  /**
   * After any non-empty run of frames, whatever the hover state was before,
   * a click depends only on the last frame: it is what a click right after
   * that frame alone would log.
   */
  lemma {:induction false} ClickAfterRun(current: Option<Intersection>, frames: seq<seq<Intersection>>)
    requires frames != []
    ensures Click(HoverRun(current, frames).0) == Click(Hover(current, frames[|frames| - 1]).0)
  {
  }

  /** The k-th hover message of a run that starts from `current`. */
  function Expected(current: Option<Intersection>, k: nat): Message
  {
    if (k % 2 == 0) == current.None? then MouseEntered else MouseLeft
  }

  /**
   * "entered" and "left" strictly alternate, starting with "entered" when
   * nothing was hovered; the run ends hovering exactly when an odd number of
   * transitions flipped the starting state.
   */
  lemma {:induction false} EnterLeaveAlternate(current: Option<Intersection>, frames: seq<seq<Intersection>>)
    ensures var (final, log) := HoverRun(current, frames);
      && (forall k :: 0 <= k < |log| ==> log[k] == Expected(current, k))
      && (final.Some? <==> (current.Some? <==> |log| % 2 == 0))
    decreases |frames|
  {
    if frames != [] {
      var (c1, log1) := Hover(current, frames[0]);
      EnterLeaveAlternate(c1, frames[1..]);
      var (final, log2) := HoverRun(c1, frames[1..]);
      var log := log1 + log2;
      assert HoverRun(current, frames) == (final, log);
      if log1 == [] {
        assert c1.None? == current.None?;
        assert log == log2;
      } else {
        assert log1 == [Expected(current, 0)];
        ShiftExpected(current, c1, log2);
      }
    }
  }

  /** A hover line followed by the lines of a run from the flipped state keeps the alternation. */
  lemma ShiftExpected(current: Option<Intersection>, c1: Option<Intersection>, log2: seq<Message>)
    requires c1.None? != current.None?
    requires forall k :: 0 <= k < |log2| ==> log2[k] == Expected(c1, k)
    ensures forall k :: 0 <= k < |log2| + 1 ==> ([Expected(current, 0)] + log2)[k] == Expected(current, k)
  {
    var log := [Expected(current, 0)] + log2;
    forall k | 1 <= k < |log|
      ensures log[k] == Expected(current, k)
    {
      assert log[k] == log2[k - 1];
    }
  }
}
