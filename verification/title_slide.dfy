/** Filling the title slide of a template (`zet_titel_dia`): the first
    slide's title placeholder gets the name, its subtitle placeholder gets
    the dates and the closing line, one per line. */
module TitleSlide {
  import opened Wrappers
  import opened Text
  import opened Slides

  predicate IsTitlePlaceholder(sh: Shape) {
    sh.Leaf? && (sh.placeholder == Some(TitlePh) || sh.placeholder == Some(CenterTitlePh))
  }

  predicate IsSubtitlePlaceholder(sh: Shape) {
    sh.Leaf? && sh.placeholder == Some(SubtitlePh)
  }

  /** The position of the last shape satisfying `p`: the loop over the
      slide's shapes keeps overwriting its choice. */
  function LastWhere(shapes: seq<Shape>, p: Shape -> bool): (r: Option<nat>)
    ensures r.Some? ==> r.value < |shapes| && p(shapes[r.value])
    ensures r.Some? ==> forall j :: r.value < j < |shapes| ==> !p(shapes[j])
    ensures r.None? ==> forall j :: 0 <= j < |shapes| ==> !p(shapes[j])
    decreases |shapes|
  {
    if |shapes| == 0 then None
    else if p(shapes[|shapes| - 1]) then Some(|shapes| - 1)
    else LastWhere(shapes[..|shapes| - 1], p)
  }

  /** The subtitle lines: the dates, then the closing line, each only when
      given and non-empty. */
  function SubtitleLines(datums: Option<string>, bijzin: Option<string>): seq<string> {
    (if Truthy(datums) then [datums.value] else []) + (if Truthy(bijzin) then [bijzin.value] else [])
  }

  function SubtitleText(datums: Option<string>, bijzin: Option<string>): string {
    Join("\n", SubtitleLines(datums, bijzin))
  }

  /** The subtitle text in each of the four cases. */
  lemma SubtitleTextCases(datums: Option<string>, bijzin: Option<string>)
    ensures Truthy(datums) && Truthy(bijzin) ==> SubtitleText(datums, bijzin) == datums.value + "\n" + bijzin.value
    ensures Truthy(datums) && !Truthy(bijzin) ==> SubtitleText(datums, bijzin) == datums.value
    ensures !Truthy(datums) && Truthy(bijzin) ==> SubtitleText(datums, bijzin) == bijzin.value
    ensures !Truthy(datums) && !Truthy(bijzin) ==> SubtitleText(datums, bijzin) == ""
  {
    if Truthy(datums) && Truthy(bijzin) {
      var lines := SubtitleLines(datums, bijzin);
      assert lines == [datums.value, bijzin.value];
      assert lines[1..] == [bijzin.value];
    }
  }

  /** Sets the text of the shape at `i`, when it has a text frame. */
  function WriteText(shapes: seq<Shape>, i: Option<nat>, text: string): (r: seq<Shape>)
    requires i.Some? ==> i.value < |shapes|
    ensures |r| == |shapes|
    ensures forall j :: 0 <= j < |shapes| && Some(j) != i ==> r[j] == shapes[j]
    ensures i.Some? && shapes[i.value].Leaf? && shapes[i.value].text.Some? ==>
      r[i.value] == shapes[i.value].(text := Some(text))
    ensures i.Some? && !(shapes[i.value].Leaf? && shapes[i.value].text.Some?) ==> r == shapes
  {
    if i.Some? && shapes[i.value].Leaf? && shapes[i.value].text.Some? then
      shapes[i.value := shapes[i.value].(text := Some(text))]
    else shapes
  }

  /** The shapes of the first slide after filling: the last title
      placeholder gets the name, the last subtitle placeholder the lines. */
  function FillTitleShapes(shapes: seq<Shape>, naam: string, sub: string): (r: seq<Shape>)
    ensures |r| == |shapes|
    // only the last title and the last subtitle placeholder can change ...
    ensures var t, u := LastWhere(shapes, IsTitlePlaceholder), LastWhere(shapes, IsSubtitlePlaceholder);
      forall j | 0 <= j < |shapes| && Some(j) != t && Some(j) != u :: r[j] == shapes[j]
    // ... and of those only the text, if they have a text frame
    ensures forall j :: 0 <= j < |shapes| ==>
      || r[j] == shapes[j]
      || (shapes[j].Leaf? && shapes[j].text.Some? && r[j].Leaf? && r[j] == shapes[j].(text := r[j].text))
    // the title gets the name
    ensures var t := LastWhere(shapes, IsTitlePlaceholder);
      t.Some? && shapes[t.value].text.Some? ==> r[t.value].text == Some(naam)
    // the subtitle gets the lines
    ensures var u := LastWhere(shapes, IsSubtitlePlaceholder);
      u.Some? && shapes[u.value].text.Some? ==> r[u.value].text == Some(sub)
  {
    var t := LastWhere(shapes, IsTitlePlaceholder);
    var u := LastWhere(shapes, IsSubtitlePlaceholder);
    var withTitle := WriteText(shapes, t, naam);
    WriteText(withTitle, u, sub)
  }

  /** `zet_titel_dia`. Only the top-level shapes of the first slide are
      looked at; nothing happens to a presentation without slides. */
  function SetTitleSlide(slides: seq<Slide>, naam: string, datums: Option<string>, bijzin: Option<string>): (r: seq<Slide>)
    ensures |r| == |slides|
    ensures |slides| == 0 ==> r == slides
    ensures forall s :: 1 <= s < |slides| ==> r[s] == slides[s]
    ensures |slides| > 0 ==> r[0].shapes == FillTitleShapes(slides[0].shapes, naam, SubtitleText(datums, bijzin))
  {
    if |slides| == 0 then slides
    else [Slide(FillTitleShapes(slides[0].shapes, naam, SubtitleText(datums, bijzin)))] + slides[1..]
  }

  /** Filling the title shapes twice is filling them once: the placeholders
      found the second time are the ones written the first time. */
  lemma FillTitleShapesIdempotent(shapes: seq<Shape>, naam: string, sub: string)
    ensures FillTitleShapes(FillTitleShapes(shapes, naam, sub), naam, sub) == FillTitleShapes(shapes, naam, sub)
  {
    var t := LastWhere(shapes, IsTitlePlaceholder);
    var u := LastWhere(shapes, IsSubtitlePlaceholder);
    var a := WriteText(shapes, t, naam);
    var s1 := WriteText(a, u, sub);
    assert FillTitleShapes(shapes, naam, sub) == s1;
    SamePlaceholders(shapes, s1, IsTitlePlaceholder);
    SamePlaceholders(shapes, s1, IsSubtitlePlaceholder);
    WriteTwoAgain(shapes, t, u, naam, sub);
  }

  /** Filling the title slide twice is filling it once. */
  lemma SetTitleSlideIdempotent(slides: seq<Slide>, naam: string, datums: Option<string>, bijzin: Option<string>)
    ensures SetTitleSlide(SetTitleSlide(slides, naam, datums, bijzin), naam, datums, bijzin)
         == SetTitleSlide(slides, naam, datums, bijzin)
  {
    if |slides| > 0 {
      var once := SetTitleSlide(slides, naam, datums, bijzin);
      FillTitleShapesIdempotent(slides[0].shapes, naam, SubtitleText(datums, bijzin));
      assert once[1..] == slides[1..];
    }
  }

  lemma WriteTwoAgain(shapes: seq<Shape>, t: Option<nat>, u: Option<nat>, a: string, b: string)
    requires t.Some? ==> t.value < |shapes|
    requires u.Some? ==> u.value < |shapes|
    requires t.Some? && u.Some? ==> t != u
    ensures WriteText(WriteText(WriteText(WriteText(shapes, t, a), u, b), t, a), u, b)
         == WriteText(WriteText(shapes, t, a), u, b)
  {
    var s1 := WriteText(WriteText(shapes, t, a), u, b);
    var s2 := WriteText(s1, t, a);
    assert s2 == s1;
  }

  /** Writing text keeps every shape's kind, so the search finds the same
      positions. */
  lemma {:induction false} SamePlaceholders(a: seq<Shape>, b: seq<Shape>, p: Shape -> bool)
    requires |a| == |b|
    requires forall j :: 0 <= j < |a| ==> p(a[j]) == p(b[j])
    ensures LastWhere(a, p) == LastWhere(b, p)
    decreases |a|
  {
    if |a| > 0 {
      SamePlaceholders(a[..|a| - 1], b[..|b| - 1], p);
    }
  }
}
