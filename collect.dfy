/**
 * Gathering the shapes of one icon (`extract_icon_elements` and its inner
 * `collect_elements`): a walk over the document in document order that
 * classifies every drawable element it meets, normalises the ones that are
 * not background, and descends only into elements that are not drawable.
 * Any exception ends the walk, and the icon then has no shapes at all.
 *
 * The walk is written over any `Step` (what the loop body does with one
 * drawable element); the generator's own step is `KeepStep`.
 */
module Collect {
  import opened Wrappers
  import opened Sequences
  import opened Svg
  import opened ViewBoxes
  import opened Background
  import opened Normalize

  /** What `ET.fromstring` makes of a file's text: a ParseError, or the root element. */
  datatype Markup = Malformed | Tree(root: Element)

  /**
   * The state of a walk: the shapes appended to `drawable_elements` so far,
   * and the exception that stopped it, if one did.
   */
  datatype Walk = Walk(found: seq<Element>, fault: Option<Fault>)

  const Nothing := Walk([], None)

  /** Running `b` after `a`; a walk that has raised does not go on. */
  function Then(a: Walk, b: Walk): Walk {
    if a.fault.Some? then a else Walk(a.found + b.found, b.fault)
  }

  /** What the loop body does with one drawable element. */
  type Step = Element -> Walk

  /** `is_background_element` for a fixed viewBox: true, false, or the exception it raises. */
  type Classifier = Element -> Result<bool, Fault>

  /** `normalize_element_to_24x24` for a fixed viewBox: the shape, or the exception it raises. */
  type Normalizer = Element -> Result<Element, Fault>

  /**
   * The loop body for one drawable element, from what the classifier says of
   * it and what the normaliser makes of it; the normaliser's answer matters
   * only for an element the classifier keeps, the only one it is called on.
   */
  function Judge(background: Result<bool, Fault>, normalized: Result<Element, Fault>): Walk {
    if background.Failure? then Walk([], Some(background.error))
    else if background.value then Nothing
    else if normalized.Failure? then Walk([], Some(normalized.error))
    else Walk([normalized.value], None)
  }

  function StepOf(classify: Classifier, normalize: Normalizer): Step {
    e => Judge(classify(e), normalize(e))
  }

  function ClassifyIn(vb: ViewBox, repr: FloatText): Classifier {
    e => Classify(e, vb, repr)
  }

  function NormalizeIn(vb: ViewBox, repr: FloatText): Normalizer {
    e => Normalized(e, vb, repr)
  }

  /** The generator's step: classify, then normalise and append what is not background. */
  function KeepStep(vb: ViewBox, repr: FloatText): Step {
    StepOf(ClassifyIn(vb, repr), NormalizeIn(vb, repr))
  }

  /** One child of the loop in `collect_elements`. */
  function Visit(e: Element, keep: Step): Walk
    decreases e
  {
    if IsDrawable(e) then keep(e) else VisitAll(e.children, keep)
  }

  /** `collect_elements(parent)` for a parent with children `ns`, one child after the other. */
  function VisitAll(ns: seq<Element>, keep: Step): Walk
    decreases ns
  {
    if ns == [] then Nothing
    else Then(VisitAll(ns[..|ns| - 1], keep), Visit(ns[|ns| - 1], keep))
  }

  // ---------------------------------------------------------------------
  // A reference definition: first find the candidates, then step through them.

  /** The drawable elements reached from `ns` without passing through another drawable one. */
  function Frontier(ns: seq<Element>): seq<Element>
    decreases ns
  {
    if ns == [] then [] else Frontier(ns[..|ns| - 1]) + Reach(ns[|ns| - 1])
  }

  function Reach(e: Element): seq<Element>
    decreases e
  {
    if IsDrawable(e) then [e] else Frontier(e.children)
  }

  /** The candidates stepped through in order, until one raises. */
  function WalkAll(cs: seq<Element>, keep: Step): Walk {
    if cs == [] then Nothing else Then(WalkAll(cs[..|cs| - 1], keep), keep(cs[|cs| - 1]))
  }

  lemma ThenAssociative(a: Walk, b: Walk, c: Walk)
    ensures Then(Then(a, b), c) == Then(a, Then(b, c))
  {
    if a.fault.None? && b.fault.None? {
      assert a.found + b.found + c.found == a.found + (b.found + c.found);
    }
  }

  lemma {:induction false} WalkAllAppend(a: seq<Element>, b: seq<Element>, keep: Step)
    ensures WalkAll(a + b, keep) == Then(WalkAll(a, keep), WalkAll(b, keep))
    decreases |b|
  {
    var wa := WalkAll(a, keep);
    if b == [] {
      AppendEmpty(a);
      AppendEmpty(wa.found);
    } else {
      var init, last := b[..|b| - 1], b[|b| - 1];
      InitOfAppend(a, b);
      WalkAllAppend(a, init, keep);
      ThenAssociative(wa, WalkAll(init, keep), keep(last));
    }
  }

  /** The walk finds its candidates first and steps through them afterwards: the two orders agree. */
  lemma {:induction false} VisitAllIsWalkOfFrontier(ns: seq<Element>, keep: Step)
    ensures VisitAll(ns, keep) == WalkAll(Frontier(ns), keep)
    decreases ns, 1
  {
    if ns != [] {
      var init, last := ns[..|ns| - 1], ns[|ns| - 1];
      VisitAllIsWalkOfFrontier(init, keep);
      VisitIsWalkOfReach(last, keep);
      WalkAllAppend(Frontier(init), Reach(last), keep);
    }
  }

  lemma {:induction false} VisitIsWalkOfReach(e: Element, keep: Step)
    ensures Visit(e, keep) == WalkAll(Reach(e), keep)
    decreases e, 0
  {
    if IsDrawable(e) {
      Singleton(e);
      AppendEmpty(keep(e).found);
    } else {
      VisitAllIsWalkOfFrontier(e.children, keep);
    }
  }

  /** Every element of `es` satisfies `p`. */
  predicate All(es: seq<Element>, p: Element -> bool) {
    es == [] || (All(es[..|es| - 1], p) && p(es[|es| - 1]))
  }

  lemma {:induction false} AllAppend(a: seq<Element>, b: seq<Element>, p: Element -> bool)
    requires All(a, p) && All(b, p)
    ensures All(a + b, p)
    decreases |b|
  {
    if b == [] {
      AppendEmpty(a);
    } else {
      var init := b[..|b| - 1];
      InitOfAppend(a, b);
      AllAppend(a, init, p);
    }
  }

  predicate AllDrawable(cs: seq<Element>) {
    All(cs, IsDrawable)
  }

  /** Every candidate carries a drawable tag. */
  lemma {:induction false} FrontierIsDrawable(ns: seq<Element>)
    ensures AllDrawable(Frontier(ns))
    decreases ns, 1
  {
    if ns != [] {
      var init, last := ns[..|ns| - 1], ns[|ns| - 1];
      FrontierIsDrawable(init);
      ReachIsDrawable(last);
      AllAppend(Frontier(init), Reach(last), IsDrawable);
    }
  }

  lemma {:induction false} ReachIsDrawable(e: Element)
    ensures AllDrawable(Reach(e))
    decreases e, 0
  {
    if IsDrawable(e) {
      Singleton(e);
    } else {
      FrontierIsDrawable(e.children);
    }
  }

  /** A drawable child is a candidate by itself, whatever elements it contains. */
  lemma DrawableChildIsCandidate(ns: seq<Element>, e: Element)
    requires IsDrawable(e)
    ensures Frontier(ns + [e]) == Frontier(ns) + [e]
  {
    var s := ns + [e];
    FrontOfAppend(ns, [e]);
    assert s[..|s| - 1] == ns && s[|s| - 1] == e;
    assert Reach(e) == [e];
    assert Frontier(s) == Frontier(ns) + Reach(e);
  }

  /** A container contributes the candidates of its children, at any depth. */
  lemma ContainerIsTransparent(ns: seq<Element>, e: Element)
    requires !IsDrawable(e)
    ensures Frontier(ns + [e]) == Frontier(ns) + Frontier(e.children)
  {
    var s := ns + [e];
    FrontOfAppend(ns, [e]);
    assert s[..|s| - 1] == ns && s[|s| - 1] == e;
    assert Reach(e) == Frontier(e.children);
    assert Frontier(s) == Frontier(ns) + Reach(e);
  }

  // ---------------------------------------------------------------------
  // What stepping through the candidates yields.

  /** Some candidate raises. */
  predicate Raises(cs: seq<Element>, keep: Step) {
    exists k :: 0 <= k < |cs| && keep(cs[k]).fault.Some?
  }

  /** The shapes the candidates give, one after the other. */
  function Gathered(cs: seq<Element>, keep: Step): seq<Element> {
    if cs == [] then [] else Gathered(cs[..|cs| - 1], keep) + keep(cs[|cs| - 1]).found
  }

  /**
   * A walk over candidates raises exactly when one of them raises; otherwise
   * it holds what each of them gives, in their order.
   */
  lemma {:induction false} WalkAllSpec(cs: seq<Element>, keep: Step)
    ensures WalkAll(cs, keep).fault.Some? <==> Raises(cs, keep)
    ensures WalkAll(cs, keep).fault.None? ==> WalkAll(cs, keep).found == Gathered(cs, keep)
  {
    if cs != [] {
      var init, last := cs[..|cs| - 1], cs[|cs| - 1];
      WalkAllSpec(init, keep);
      if Raises(init, keep) {
        var k :| 0 <= k < |init| && keep(init[k]).fault.Some?;
        assert init[k] == cs[k];
      } else if keep(last).fault.Some? {
        assert Raises(cs, keep);
      } else {
        forall k | 0 <= k < |cs| ensures keep(cs[k]).fault.None? {
          if k < |init| {
            assert init[k] == cs[k];
          }
        }
      }
    }
  }

  /** The candidates the classifier keeps, in order. */
  function Survivors(cs: seq<Element>, classify: Classifier): seq<Element> {
    if cs == [] then []
    else
      var rest := Survivors(cs[..|cs| - 1], classify);
      if classify(cs[|cs| - 1]) == Success(false) then rest + [cs[|cs| - 1]] else rest
  }

  /** Each of `es` through the normaliser (the ones it rejects dropped). */
  function NormalizedAll(es: seq<Element>, normalize: Normalizer): seq<Element> {
    if es == [] then []
    else
      var rest := NormalizedAll(es[..|es| - 1], normalize);
      var n := normalize(es[|es| - 1]);
      if n.Success? then rest + [n.value] else rest
  }

  /** When no candidate raises, the step gives exactly the survivors, normalised. */
  lemma {:induction false} GatheredIsNormalizedSurvivors(cs: seq<Element>, classify: Classifier, normalize: Normalizer)
    requires !Raises(cs, StepOf(classify, normalize))
    ensures Gathered(cs, StepOf(classify, normalize)) == NormalizedAll(Survivors(cs, classify), normalize)
  {
    if cs != [] {
      var keep := StepOf(classify, normalize);
      var init, last := cs[..|cs| - 1], cs[|cs| - 1];
      forall k | 0 <= k < |init| ensures keep(init[k]).fault.None? {
        assert init[k] == cs[k];
      }
      GatheredIsNormalizedSurvivors(init, classify, normalize);
      assert keep(cs[|cs| - 1]).fault.None?;
      assert keep(last) == Judge(classify(last), normalize(last));
      JudgeWithoutFault(classify(last), normalize(last));
      assert Gathered(cs, keep) == Gathered(init, keep) + keep(last).found;
      var rest := Survivors(init, classify);
      if classify(last) == Success(false) {
        var kept := rest + [last];
        assert Survivors(cs, classify) == kept;
        InitOfAppend(rest, [last]);
        assert kept[..|kept| - 1] == rest && kept[|kept| - 1] == last;
        assert NormalizedAll(kept, normalize) == NormalizedAll(rest, normalize) + [normalize(last).value];
      } else {
        assert Survivors(cs, classify) == rest;
        AppendEmpty(Gathered(init, keep));
      }
    }
  }

  /** A step that does not raise keeps a shape exactly when the classifier does, and normalises it. */
  lemma JudgeWithoutFault(background: Result<bool, Fault>, normalized: Result<Element, Fault>)
    requires Judge(background, normalized).fault.None?
    ensures background == Success(false) ==> normalized.Success? && Judge(background, normalized).found == [normalized.value]
    ensures background != Success(false) ==> Judge(background, normalized).found == []
  {
  }

  /** A shape with a drawable tag, painted with `currentColor`. */
  predicate Painted(e: Element) {
    IsDrawable(e) && HasAttr(e, "fill", "currentColor")
  }

  predicate AllPainted(es: seq<Element>) {
    All(es, Painted)
  }

  /** Every drawable shape the normaliser accepts comes out drawable and painted. */
  ghost predicate Paints(normalize: Normalizer) {
    forall e :: IsDrawable(e) && normalize(e).Success? ==> Painted(normalize(e).value)
  }

  /** The normaliser rejects every shape. */
  ghost predicate RejectsAll(normalize: Normalizer) {
    forall e :: normalize(e).Failure?
  }

  /** Normalising a drawable shape keeps it drawable and paints it with `currentColor`. */
  lemma NormalizerPaints(vb: ViewBox, repr: FloatText)
    ensures Paints(NormalizeIn(vb, repr))
  {
    var normalize := NormalizeIn(vb, repr);
    forall e | IsDrawable(e) && normalize(e).Success? ensures Painted(normalize(e).value) {
      var n := Normalized(e, vb, repr).value;
      assert n.tag == e.tag && n.attrs == NormalizedAttrs(e, vb, repr);
      assert IsDrawable(n) && HasAttr(n, "fill", "currentColor");
    }
  }

  /** A viewBox of zero size makes the division in the normaliser raise, whatever the shape. */
  lemma ZeroSizeRejectsAll(vb: ViewBox, repr: FloatText)
    requires vb.W() == 0.0 || vb.H() == 0.0
    ensures RejectsAll(NormalizeIn(vb, repr))
  {
    var normalize := NormalizeIn(vb, repr);
    forall e ensures normalize(e).Failure? {
      assert normalize(e) == Normalized(e, vb, repr);
    }
  }

  lemma {:induction false} KeepPaints(cs: seq<Element>, classify: Classifier, normalize: Normalizer)
    requires AllDrawable(cs) && Paints(normalize)
    ensures AllPainted(Gathered(cs, StepOf(classify, normalize)))
  {
    if cs != [] {
      var keep := StepOf(classify, normalize);
      var init, last := cs[..|cs| - 1], cs[|cs| - 1];
      KeepPaints(init, classify, normalize);
      KeepOnePaints(last, classify, normalize);
      AllAppend(Gathered(init, keep), keep(last).found, Painted);
    }
  }

  lemma KeepOnePaints(e: Element, classify: Classifier, normalize: Normalizer)
    requires IsDrawable(e) && Paints(normalize)
    ensures AllPainted(StepOf(classify, normalize)(e).found)
  {
    var background, normalized := classify(e), normalize(e);
    assert StepOf(classify, normalize)(e) == Judge(background, normalized);
    JudgeFound(background, normalized);
    if Judge(background, normalized).found != [] {
      AllOne(normalized.value, Painted);
    }
  }

  /** A step appends nothing, or exactly the normalised shape. */
  lemma JudgeFound(background: Result<bool, Fault>, normalized: Result<Element, Fault>)
    ensures var found := Judge(background, normalized).found;
            found == [] || (normalized.Success? && found == [normalized.value])
  {
  }

  lemma AllOne(x: Element, p: Element -> bool)
    requires p(x)
    ensures All([x], p)
  {
    Singleton(x);
  }

  /** When the normaliser rejects everything, the first survivor raises. */
  lemma {:induction false} SurvivorRaises(cs: seq<Element>, classify: Classifier, normalize: Normalizer)
    requires RejectsAll(normalize)
    requires Survivors(cs, classify) != []
    ensures Raises(cs, StepOf(classify, normalize))
  {
    var keep := StepOf(classify, normalize);
    var init, last := cs[..|cs| - 1], cs[|cs| - 1];
    assert keep(last) == Judge(classify(last), normalize(last));
    if keep(last).fault.None? {
      assert classify(last) != Success(false);
      SurvivorRaises(init, classify, normalize);
      var k :| 0 <= k < |init| && keep(init[k]).fault.Some?;
      assert init[k] == cs[k];
    } else {
      assert Raises(cs, keep);
    }
  }

  // ---------------------------------------------------------------------
  // The imperative walk.

  lemma {:induction false} FaultStops(ns: seq<Element>, i: nat, keep: Step)
    requires i <= |ns| && VisitAll(ns[..i], keep).fault.Some?
    ensures VisitAll(ns, keep) == VisitAll(ns[..i], keep)
    decreases |ns| - i
  {
    if i < |ns| {
      TakeOfTake(ns, i, i + 1);
      FaultStops(ns, i + 1, keep);
    } else {
      TakeAll(ns);
    }
  }

  lemma VisitAllSnoc(ns: seq<Element>, i: nat, keep: Step)
    requires i < |ns|
    ensures VisitAll(ns[..i + 1], keep) == Then(VisitAll(ns[..i], keep), Visit(ns[i], keep))
  {
    TakeOfTake(ns, i, i + 1);
  }

  lemma FoundSnoc(ns: seq<Element>, i: nat, keep: Step)
    requires i < |ns| && VisitAll(ns[..i], keep).fault.None?
    ensures VisitAll(ns[..i + 1], keep).found == VisitAll(ns[..i], keep).found + Visit(ns[i], keep).found
  {
    VisitAllSnoc(ns, i, keep);
  }

  /** One more child of the loop, appended after what `base` already holds. */
  lemma Advance(base: seq<Element>, ns: seq<Element>, i: nat, keep: Step)
    requires i < |ns| && VisitAll(ns[..i], keep).fault.None?
    ensures base + VisitAll(ns[..i + 1], keep).found == base + VisitAll(ns[..i], keep).found + Visit(ns[i], keep).found
    ensures VisitAll(ns[..i + 1], keep).fault == Visit(ns[i], keep).fault
  {
    VisitAllSnoc(ns, i, keep);
    FoundSnoc(ns, i, keep);
    AppendIsAssociative(base, VisitAll(ns[..i], keep).found, Visit(ns[i], keep).found);
  }

  /**
   * The loop body for a drawable child: classify it, and normalise it unless
   * it is background.
   */
  method KeepElement(e: Element, vb: ViewBox, repr: FloatText) returns (w: Walk)
    ensures w == KeepStep(vb, repr)(e)
  {
    var background := Classify(e, vb, repr);
    ghost var n := Normalized(e, vb, repr);
    assert KeepStep(vb, repr)(e) == Judge(background, n);
    if background.Failure? {
      w := Walk([], Some(background.error));
    } else if !background.value {
      var normalized := NormalizeElement(e, vb, repr);
      if normalized.Failure? {
        w := Walk([], Some(normalized.error));
      } else {
        w := Walk([normalized.value], None);
      }
    } else {
      w := Nothing;
    }
    assert w == Judge(background, n);
  }

  /** The closure of `collect_elements`: the viewBox it reads and the list it appends to. */
  class Collector {
    const viewBox: ViewBox
    const repr: FloatText
    var drawable: seq<Element>

    constructor (viewBox: ViewBox, repr: FloatText)
      ensures this.viewBox == viewBox && this.repr == repr && drawable == []
    {
      this.viewBox := viewBox;
      this.repr := repr;
      drawable := [];
    }

    /**
     * `collect_elements(parent)`: appends what the walk over the children
     * finds and returns the exception that stopped it, if any.
     */
    method Collect(parent: Element) returns (fault: Option<Fault>)
      modifies this
      ensures var w := VisitAll(parent.children, KeepStep(viewBox, repr));
              drawable == old(drawable) + w.found && fault == w.fault
      decreases parent, 0
    {
      ghost var keep := KeepStep(viewBox, repr);
      var children := parent.children;
      var i := 0;
      while i < |children|
        invariant 0 <= i <= |children|
        invariant VisitAll(children[..i], keep).fault.None?
        invariant drawable == old(drawable) + VisitAll(children[..i], keep).found
      {
        Advance(old(drawable), children, i, keep);
        var step := Child(children[i]);
        if step.Some? {
          FaultStops(children, i + 1, keep);
          return step;
        }
        i := i + 1;
      }
      TakeAll(children);
      return None;
    }

    /** The body of the loop in `collect_elements`, for one child. */
    method Child(element: Element) returns (step: Option<Fault>)
      modifies this
      ensures var w := Visit(element, KeepStep(viewBox, repr));
              drawable == old(drawable) + w.found && step == w.fault
      decreases element, 1
    {
      if IsDrawable(element) {
        var w := KeepElement(element, viewBox, repr);
        drawable := drawable + w.found;
        step := w.fault;
      } else {
        step := Collect(element);
      }
    }
  }

  /** `extract_icon_elements` as a value: no shapes for malformed XML or when the walk raises. */
  function IconElements(markup: Markup, repr: FloatText): seq<Element> {
    match markup
    case Malformed => []
    case Tree(root) =>
      var w := VisitAll(root.children, KeepStep(DocumentViewBox(root), repr));
      if w.fault.Some? then [] else w.found
  }

  /** `extract_icon_elements(svg_content)`. */
  method ExtractIconElements(markup: Markup, repr: FloatText) returns (elements: seq<Element>)
    ensures elements == IconElements(markup, repr)
  {
    match markup
    case Malformed =>
      return [];
    case Tree(root) =>
      var viewBox := DocumentViewBox(root);
      var collector := new Collector(viewBox, repr);
      var fault := collector.Collect(root);
      ghost var w := VisitAll(root.children, KeepStep(viewBox, repr));
      AppendEmpty(w.found);
      if fault.Some? {
        return [];
      }
      return collector.drawable;
  }

  /**
   * The shapes of an icon are its candidates (in document order) that the
   * classifier keeps, each normalised — or none at all when some candidate
   * raises; every one is drawable and painted with `currentColor`.
   */
  lemma IconElementsSpec(root: Element, repr: FloatText)
    ensures var vb, cs := DocumentViewBox(root), Frontier(root.children);
            var es := IconElements(Tree(root), repr);
            es == (if Raises(cs, KeepStep(vb, repr)) then []
                   else NormalizedAll(Survivors(cs, ClassifyIn(vb, repr)), NormalizeIn(vb, repr)))
            && AllPainted(es)
  {
    var vb, cs := DocumentViewBox(root), Frontier(root.children);
    var classify, normalize := ClassifyIn(vb, repr), NormalizeIn(vb, repr);
    var keep := KeepStep(vb, repr);
    VisitAllIsWalkOfFrontier(root.children, keep);
    WalkAllSpec(cs, keep);
    FrontierIsDrawable(root.children);
    NormalizerPaints(vb, repr);
    KeepPaints(cs, classify, normalize);
    var w := VisitAll(root.children, keep);
    assert w == WalkAll(cs, keep);
    assert IconElements(Tree(root), repr) == (if w.fault.Some? then [] else w.found);
    if !Raises(cs, keep) {
      assert keep == StepOf(classify, normalize);
      GatheredIsNormalizedSurvivors(cs, classify, normalize);
    }
  }

  /**
   * A viewBox of zero size makes the first shape the classifier keeps raise
   * in the division, so such an icon has no shapes.
   */
  lemma ZeroSizeViewBoxEmptiesIcon(root: Element, repr: FloatText)
    requires var vb := DocumentViewBox(root); vb.W() == 0.0 || vb.H() == 0.0
    requires Survivors(Frontier(root.children), ClassifyIn(DocumentViewBox(root), repr)) != []
    ensures IconElements(Tree(root), repr) == []
  {
    var vb, cs := DocumentViewBox(root), Frontier(root.children);
    VisitAllIsWalkOfFrontier(root.children, KeepStep(vb, repr));
    WalkAllSpec(cs, KeepStep(vb, repr));
    ZeroSizeRejectsAll(vb, repr);
    SurvivorRaises(cs, ClassifyIn(vb, repr), NormalizeIn(vb, repr));
  }
}
