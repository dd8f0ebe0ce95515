/** The part of a presentation document the core looks at: slides, their
    shape trees, and per shape its name, bounds, placeholder type, whether it
    is a picture or has a picture fill, and its text frame. */
module Slides {
  import opened Wrappers
  import opened Geometry

  /** The placeholder types the core distinguishes. */
  datatype PlaceholderType = TitlePh | CenterTitlePh | SubtitlePh | PicturePh | OtherPh

  /** A shape. `placeholder` is `None` for a shape that is not a placeholder;
      `text` is `None` for a shape without a text frame. A group carries its
      own name and bounds and its child shapes in z-order. */
  datatype Shape =
    | Leaf(name: Option<string>, bounds: Bounds, placeholder: Option<PlaceholderType>,
           picture: bool, pictureFill: bool, text: Option<string>)
    | Group(name: Option<string>, bounds: Bounds, children: seq<Shape>)

  datatype Slide = Slide(shapes: seq<Shape>)

  /** `_iter_all_shapes_recursive`: every shape, pre-order; a group comes
      right before its own children. */
  function Flatten(shapes: seq<Shape>): (r: seq<Shape>)
    ensures |r| >= |shapes|
    ensures |shapes| > 0 ==> r[0] == shapes[0]
    ensures forall i {:trigger shapes[i] in r} :: 0 <= i < |shapes| ==> shapes[i] in r
    decreases shapes
  {
    if |shapes| == 0 then []
    else
      var first := shapes[0];
      var rest := Flatten(shapes[1..]);
      var r := [first] + (if first.Group? then Flatten(first.children) else []) + rest;
      assert forall i :: 1 <= i < |shapes| ==> shapes[i] == shapes[1..][i - 1];
      assert forall x :: x in rest ==> x in r;
      r
  }

  /** Walking two runs of sibling shapes walks one, then the other. */
  lemma {:induction false} FlattenConcat(a: seq<Shape>, b: seq<Shape>)
    ensures Flatten(a + b) == Flatten(a) + Flatten(b)
    decreases |a|
  {
    if |a| > 0 {
      var head := [a[0]] + (if a[0].Group? then Flatten(a[0].children) else []);
      assert (a + b)[0] == a[0];
      assert (a + b)[1..] == a[1..] + b;
      FlattenCons(a + b);
      FlattenCons(a);
      FlattenConcat(a[1..], b);
      SeqAssoc(head, Flatten(a[1..]), Flatten(b));
    } else {
      assert a + b == b;
    }
  }

  /** Where a shape sits among its siblings, the walk visits the shapes
      before it, then the shape, then (for a group) its whole subtree, then
      the shapes after it. */
  lemma FlattenAround(shapes: seq<Shape>, i: nat)
    requires i < |shapes|
    ensures Flatten(shapes) ==
      Flatten(shapes[..i]) + [shapes[i]]
      + (if shapes[i].Group? then Flatten(shapes[i].children) else [])
      + Flatten(shapes[i + 1..])
  {
    var fp, fs, fr := Flatten(shapes[..i]), (if shapes[i].Group? then Flatten(shapes[i].children) else []), Flatten(shapes[i + 1..]);
    FlattenSplit(shapes, i);
    FlattenFrom(shapes, i);
    SeqAssoc(fp, [shapes[i]] + fs, fr);
    SeqAssoc(fp, [shapes[i]], fs);
  }

  lemma FlattenSplit(shapes: seq<Shape>, i: nat)
    requires i <= |shapes|
    ensures Flatten(shapes) == Flatten(shapes[..i]) + Flatten(shapes[i..])
  {
    assert shapes == shapes[..i] + shapes[i..];
    FlattenConcat(shapes[..i], shapes[i..]);
  }

  lemma FlattenFrom(shapes: seq<Shape>, i: nat)
    requires i < |shapes|
    ensures Flatten(shapes[i..]) ==
      [shapes[i]] + (if shapes[i].Group? then Flatten(shapes[i].children) else []) + Flatten(shapes[i + 1..])
  {
    var rest := shapes[i..];
    FlattenCons(rest);
    assert rest[0] == shapes[i];
    assert rest[1..] == shapes[i + 1..];
  }

  lemma SeqAssoc<T>(a: seq<T>, b: seq<T>, c: seq<T>)
    ensures a + (b + c) == a + b + c
  {
  }

  lemma FlattenCons(shapes: seq<Shape>)
    requires |shapes| > 0
    ensures Flatten(shapes) ==
      [shapes[0]] + (if shapes[0].Group? then Flatten(shapes[0].children) else []) + Flatten(shapes[1..])
  {
  }

  /** Without groups the walk is the shape list itself. */
  lemma {:induction false} FlattenWithoutGroups(shapes: seq<Shape>)
    requires forall i :: 0 <= i < |shapes| ==> shapes[i].Leaf?
    ensures Flatten(shapes) == shapes
    decreases |shapes|
  {
    if |shapes| > 0 {
      var rest := shapes[1..];
      assert forall i :: 0 <= i < |rest| ==> rest[i].Leaf? by {
        forall i | 0 <= i < |rest| ensures rest[i].Leaf? {
          assert rest[i] == shapes[i + 1];
        }
      }
      FlattenWithoutGroups(rest);
      FlattenLeafCons(shapes);
      assert shapes == [shapes[0]] + rest;
    }
  }

  lemma FlattenLeafCons(shapes: seq<Shape>)
    requires |shapes| > 0 && shapes[0].Leaf?
    ensures Flatten(shapes) == [shapes[0]] + Flatten(shapes[1..])
  {
    FlattenCons(shapes);
  }

  /** All shapes of all slides: slide by slide, each walked pre-order. */
  function AllShapes(slides: seq<Slide>): seq<Shape>
    decreases |slides|
  {
    if |slides| == 0 then []
    else AllShapes(slides[..|slides| - 1]) + Flatten(slides[|slides| - 1].shapes)
  }

  /** The shapes of earlier slides come before those of later slides. */
  lemma {:induction false} AllShapesConcat(a: seq<Slide>, b: seq<Slide>)
    ensures AllShapes(a + b) == AllShapes(a) + AllShapes(b)
    decreases |b|
  {
    if |b| == 0 {
      assert a + b == a;
    } else {
      var init, last := b[..|b| - 1], b[|b| - 1];
      assert (a + b)[..|a + b| - 1] == a + init;
      assert (a + b)[|a + b| - 1] == last;
      var tail := Flatten(last.shapes);
      assert AllShapes(a + b) == AllShapes(a + init) + tail;
      assert AllShapes(b) == AllShapes(init) + tail;
      AllShapesConcat(a, init);
      SeqAssoc(AllShapes(a), AllShapes(init), tail);
    }
  }
}
