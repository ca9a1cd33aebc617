// Label and assembly-tree helpers of the exporter (src/XcafTools.cpp): file-name-safe
// label paths, the two component-selection rules over the assembly tree, and the
// priority chain that finds a label's colour. The document is an abstract tree: the
// kernel's queries are the fields of `AssemblyTree` and `ColorDoc`.

module XcafTools {
  import opened Common

  /** A label of the document; `entry` gives its textual path such as "0:1:1:2". */
  type Label = nat

  /** The shape tool's view of the assembly: the direct components of a label, all of
      its components in depth-first order, and each label's entry string. */
  datatype AssemblyTree = AssemblyTree(
    children: Label -> seq<Label>,
    deepComponents: Label -> seq<Label>,
    entry: Label -> string)

  // ---------------------------------------------------------------------------
  // Label paths as file names

  /** The file-name form of an entry: every ':' becomes '-'. */
  function Dashed(s: string): (r: string)
  {
    seq(|s|, i requires 0 <= i < |s| => if s[i] == ':' then '-' else s[i])
  }

  /** The character loop: rewrites the entry string in place. */
  method LabelPathForFilename(tree: AssemblyTree, lab: Label) returns (s: string)
    ensures |s| == |tree.entry(lab)|
    ensures forall i :: 0 <= i < |s| ==> s[i] == if tree.entry(lab)[i] == ':' then '-' else tree.entry(lab)[i]
    ensures ':' !in s
    ensures s == Dashed(tree.entry(lab))
  {
    s := tree.entry(lab);
    ghost var e := s;
    for i := 0 to |s|
      invariant |s| == |e|
      invariant forall k :: 0 <= k < i ==> s[k] == if e[k] == ':' then '-' else e[k]
      invariant forall k :: i <= k < |s| ==> s[k] == e[k]
    {
      if s[i] == ':' {
        s := s[i := '-'];
      }
    }
  }

  /** Dashed leaves no ':' and keeps every other character in place. */
  lemma DashedShape(s: string)
    ensures |Dashed(s)| == |s| && ':' !in Dashed(s)
    ensures forall i :: 0 <= i < |s| && s[i] != ':' ==> Dashed(s)[i] == s[i]
  {
    assert forall i :: 0 <= i < |Dashed(s)| ==> Dashed(s)[i] != ':';
  }

  /** Entries are made of digits and ':', so two different entries never share a file
      name: on strings without '-' the rewrite is injective. */
  lemma DashedInjective(s: string, t: string)
    requires '-' !in s && '-' !in t
    requires Dashed(s) == Dashed(t)
    ensures s == t
  {
    assert |s| == |Dashed(s)| == |t|;
    forall i | 0 <= i < |s|
      ensures s[i] == t[i]
    {
      assert Dashed(s)[i] == Dashed(t)[i];
      assert s[i] != '-' && t[i] != '-';
    }
  }

  lemma DashedIdempotent(s: string)
    ensures Dashed(Dashed(s)) == Dashed(s)
  {
  }

  // ---------------------------------------------------------------------------
  // Shallow selection: children of each root, or the root itself

  function ChildrenOrSelf(tree: AssemblyTree, root: Label): seq<Label>
  {
    if |tree.children(root)| == 0 then [root] else tree.children(root)
  }

  function ShallowSelection(tree: AssemblyTree, roots: seq<Label>): seq<Label>
  {
    if |roots| == 0 then [] else ShallowSelection(tree, roots[..|roots| - 1]) + ChildrenOrSelf(tree, roots[|roots| - 1])
  }

  method CollectAssemblyComponentsShallow(tree: AssemblyTree, roots: seq<Label>, out: seq<Label>)
    returns (out': seq<Label>)
    ensures out' == out + ShallowSelection(tree, roots)
  {
    out' := out;
    for r := 0 to |roots|
      invariant out' == out + ShallowSelection(tree, roots[..r])
    {
      assert roots[..r + 1][..r] == roots[..r];
      var root := roots[r];
      var children := tree.children(root);
      if |children| == 0 {
        out' := out' + [root];
      } else {
        ghost var before := out';
        for i := 0 to |children|
          invariant out' == before + children[..i]
        {
          assert children[..i + 1] == children[..i] + [children[i]];
          out' := out' + [children[i]];
        }
        assert children[..|children|] == children;
      }
    }
    assert roots[..|roots|] == roots;
  }

  /** A label is selected exactly when it is a root without children or a direct child
      of some root. */
  lemma {:induction false} ShallowMembers(tree: AssemblyTree, roots: seq<Label>, x: Label)
    ensures x in ShallowSelection(tree, roots) <==>
      exists r :: 0 <= r < |roots| && ((|tree.children(roots[r])| == 0 && x == roots[r]) || x in tree.children(roots[r]))
  {
    if |roots| > 0 {
      var init := roots[..|roots| - 1];
      ShallowMembers(tree, init, x);
      if x in ShallowSelection(tree, init) {
        var r :| 0 <= r < |init| && ((|tree.children(init[r])| == 0 && x == init[r]) || x in tree.children(init[r]));
        assert roots[r] == init[r];
      }
      if exists r :: 0 <= r < |roots| && ((|tree.children(roots[r])| == 0 && x == roots[r]) || x in tree.children(roots[r])) {
        var r :| 0 <= r < |roots| && ((|tree.children(roots[r])| == 0 && x == roots[r]) || x in tree.children(roots[r]));
        if r < |init| {
          assert init[r] == roots[r];
        }
      }
    }
  }

  /** Every root contributes at least one label. */
  lemma {:induction false} ShallowCoversRoots(tree: AssemblyTree, roots: seq<Label>)
    ensures |ShallowSelection(tree, roots)| >= |roots|
  {
    if |roots| > 0 {
      ShallowCoversRoots(tree, roots[..|roots| - 1]);
    }
  }

  // ---------------------------------------------------------------------------
  // Deep selection: leaves, each entry once, falling back to the roots

  /** All components of all roots, root by root. */
  function DeepComponents(tree: AssemblyTree, roots: seq<Label>): seq<Label>
  {
    if |roots| == 0 then [] else tree.deepComponents(roots[0]) + DeepComponents(tree, roots[1..])
  }

  /** The walk over components: a label whose entry was seen is skipped; otherwise its
      entry is recorded, and it is picked when it has no direct children. */
  function Walk(tree: AssemblyTree, comps: seq<Label>, seen: set<string>, picked: seq<Label>): (r: (set<string>, seq<Label>))
    decreases |comps|
  {
    if |comps| == 0 then (seen, picked)
    else
      var lab := comps[0];
      var key := tree.entry(lab);
      if key in seen then Walk(tree, comps[1..], seen, picked)
      else if |tree.children(lab)| > 0 then Walk(tree, comps[1..], seen + {key}, picked)
      else Walk(tree, comps[1..], seen + {key}, picked + [lab])
  }

  /** The labels CollectLeafComponentsDeep leaves in `out`: the walk's picks appended to
      `out`, or the roots when the result would otherwise be empty. */
  function DeepSelection(tree: AssemblyTree, roots: seq<Label>, out: seq<Label>): seq<Label>
  {
    var walked := Walk(tree, DeepComponents(tree, roots), {}, out).1;
    if |walked| == 0 then roots else walked
  }

  method CollectLeafComponentsDeep(tree: AssemblyTree, roots: seq<Label>, out: seq<Label>)
    returns (out': seq<Label>)
    ensures out' == DeepSelection(tree, roots, out)
  {
    var seen: set<string> := {};
    out' := out;
    ghost var goal := Walk(tree, DeepComponents(tree, roots), {}, out);
    assert roots[0..] == roots;
    for r := 0 to |roots|
      invariant goal == Walk(tree, DeepComponents(tree, roots[r..]), seen, out')
    {
      var comps := tree.deepComponents(roots[r]);
      ghost var rest := DeepComponents(tree, roots[r + 1..]);
      assert roots[r..][1..] == roots[r + 1..];
      assert comps[0..] + rest == DeepComponents(tree, roots[r..]);
      for i := 0 to |comps|
        invariant goal == Walk(tree, comps[i..] + rest, seen, out')
      {
        assert (comps[i..] + rest)[1..] == comps[i + 1..] + rest;
        var lab := comps[i];
        var key := tree.entry(lab);
        if key !in seen {
          seen := seen + {key};
          if |tree.children(lab)| == 0 {
            out' := out' + [lab];
          }
        }
      }
      assert comps[|comps|..] + rest == rest;
    }
    assert roots[|roots|..] == [];
    if |out'| == 0 {
      for r := 0 to |roots|
        invariant out' == roots[..r]
      {
        out' := out' + [roots[r]];
      }
      assert roots[..|roots|] == roots;
    }
  }

  /** The walk only appends, and what it appends are leaves taken from the components. */
  lemma {:induction false} WalkPicksLeaves(tree: AssemblyTree, comps: seq<Label>, seen: set<string>, picked: seq<Label>)
    ensures var (seen', picked') := Walk(tree, comps, seen, picked);
      && picked <= picked'
      && forall k :: |picked| <= k < |picked'| ==> picked'[k] in comps && |tree.children(picked'[k])| == 0
    decreases |comps|
  {
    if |comps| > 0 {
      var lab := comps[0];
      var key := tree.entry(lab);
      var next := if key in seen then (seen, picked)
                  else if |tree.children(lab)| > 0 then (seen + {key}, picked)
                  else (seen + {key}, picked + [lab]);
      WalkPicksLeaves(tree, comps[1..], next.0, next.1);
      var (seen', picked') := Walk(tree, comps, seen, picked);
      forall k | |picked| <= k < |picked'|
        ensures picked'[k] in comps && |tree.children(picked'[k])| == 0
      {
        if k >= |next.1| {
          assert picked'[k] in comps[1..];
        }
      }
    }
  }

  /** Entries of the picked labels are pairwise distinct, none was seen before the walk,
      and all of them are recorded as seen afterwards. */
  lemma {:induction false} WalkPicksEachEntryOnce(tree: AssemblyTree, comps: seq<Label>, seen: set<string>, picked: seq<Label>)
    ensures var (seen', picked') := Walk(tree, comps, seen, picked);
      && seen <= seen'
      && |picked| <= |picked'|
      && (forall k :: |picked| <= k < |picked'| ==> tree.entry(picked'[k]) !in seen && tree.entry(picked'[k]) in seen')
      && (forall k, m :: |picked| <= k < m < |picked'| ==> tree.entry(picked'[k]) != tree.entry(picked'[m]))
    decreases |comps|
  {
    if |comps| > 0 {
      var lab := comps[0];
      var key := tree.entry(lab);
      if key in seen {
        WalkPicksEachEntryOnce(tree, comps[1..], seen, picked);
      } else if |tree.children(lab)| > 0 {
        WalkPicksEachEntryOnce(tree, comps[1..], seen + {key}, picked);
      } else {
        WalkPicksEachEntryOnce(tree, comps[1..], seen + {key}, picked + [lab]);
        WalkPicksLeaves(tree, comps[1..], seen + {key}, picked + [lab]);
        var (seen', picked') := Walk(tree, comps, seen, picked);
        assert (picked + [lab]) <= picked';
        assert picked'[|picked|] == lab;
        assert tree.entry(lab) in seen';
      }
    }
  }

  /** Every leaf among the components whose entry was not seen before is picked, provided
      entries identify labels (as a document's entries do). */
  lemma {:induction false} WalkPicksEveryLeaf(tree: AssemblyTree, comps: seq<Label>, seen: set<string>, picked: seq<Label>, x: Label)
    requires forall i, j :: 0 <= i < |comps| && 0 <= j < |comps| && tree.entry(comps[i]) == tree.entry(comps[j]) ==> comps[i] == comps[j]
    requires x in comps && |tree.children(x)| == 0 && tree.entry(x) !in seen
    ensures x in Walk(tree, comps, seen, picked).1
    decreases |comps|
  {
    var lab := comps[0];
    var key := tree.entry(lab);
    WalkPicksLeaves(tree, comps[1..], seen + {key}, picked + [lab]);
    if lab == x {
      assert (picked + [lab])[|picked|] == x;
      var r := Walk(tree, comps[1..], seen + {key}, picked + [lab]).1;
      assert (picked + [lab]) <= r;
      assert r[|picked|] == x;
    } else {
      assert x in comps[1..];
      assert key != tree.entry(x);
      if key in seen {
        WalkPicksEveryLeaf(tree, comps[1..], seen, picked, x);
      } else if |tree.children(lab)| > 0 {
        WalkPicksEveryLeaf(tree, comps[1..], seen + {key}, picked, x);
      } else {
        WalkPicksEveryLeaf(tree, comps[1..], seen + {key}, picked + [lab], x);
      }
    }
  }

  /** The deep selection keeps what `out` held, adds only leaves from the roots' components
      with distinct entries, and falls back to the roots exactly when the output is still
      empty after the walk (it started empty and no leaf was picked). */
  lemma DeepSelectionShape(tree: AssemblyTree, roots: seq<Label>, out: seq<Label>)
    ensures var sel := DeepSelection(tree, roots, out);
      var walked := Walk(tree, DeepComponents(tree, roots), {}, out).1;
      && (|walked| == 0 ==> sel == roots)
      && (|walked| > 0 ==>
            (&& sel == walked && out <= sel
             && (forall k :: |out| <= k < |sel| ==> sel[k] in DeepComponents(tree, roots) && |tree.children(sel[k])| == 0)
             && (forall k, m :: |out| <= k < m < |sel| ==> tree.entry(sel[k]) != tree.entry(sel[m]))))
  {
    WalkPicksLeaves(tree, DeepComponents(tree, roots), {}, out);
    WalkPicksEachEntryOnce(tree, DeepComponents(tree, roots), {}, out);
  }

  // ---------------------------------------------------------------------------
  // Colours

  /** An RGB colour as the document stores it. */
  datatype Color = Color(red: real, green: real, blue: real)

  datatype ColorKind = Surface | Generic | Curve

  /** The colour tool (absent when `hasColorTool` is false) and the shape-tool queries the
      colour chain uses: a label's referred prototype, its shape, and the label a shape
      search finds for a shape. Shapes are identified by number. */
  datatype ColorDoc = ColorDoc(
    hasColorTool: bool,
    colorOf: (Label, ColorKind) -> Option<Color>,
    referred: Label -> Option<Label>,
    shapeOf: Label -> Option<nat>,
    search: nat -> Option<Label>)

  /** A label's own colour: surface, else generic, else curve. */
  function OwnColor(doc: ColorDoc, lab: Label): Option<Color>
  {
    if doc.colorOf(lab, Surface).Some? then doc.colorOf(lab, Surface)
    else if doc.colorOf(lab, Generic).Some? then doc.colorOf(lab, Generic)
    else doc.colorOf(lab, Curve)
  }

  /** GetEffectiveColor: the label's own colour, else its prototype's, else the colour of
      the label a shape search finds; nothing without a colour tool. */
  function EffectiveColor(doc: ColorDoc, lab: Label): (r: Option<Color>)
    ensures r.Some? ==> doc.hasColorTool
    ensures doc.hasColorTool && OwnColor(doc, lab).Some? ==> r == OwnColor(doc, lab)
    ensures (doc.hasColorTool && OwnColor(doc, lab).None? && doc.referred(lab).Some?
             && OwnColor(doc, doc.referred(lab).value).Some?) ==> r == OwnColor(doc, doc.referred(lab).value)
  {
    if !doc.hasColorTool then None
    else if OwnColor(doc, lab).Some? then OwnColor(doc, lab)
    else if doc.referred(lab).Some? && OwnColor(doc, doc.referred(lab).value).Some? then OwnColor(doc, doc.referred(lab).value)
    else if doc.shapeOf(lab).Some? && doc.search(doc.shapeOf(lab).value).Some? then OwnColor(doc, doc.search(doc.shapeOf(lab).value).value)
    else None
  }

  /** The lookups in the order the chain tries them. */
  function Candidates(doc: ColorDoc, lab: Label): seq<(Label, ColorKind)>
  {
    var own := [(lab, Surface), (lab, Generic), (lab, Curve)];
    var proto := if doc.referred(lab).Some? then var p := doc.referred(lab).value; [(p, Surface), (p, Generic), (p, Curve)] else [];
    var found := if doc.shapeOf(lab).Some? && doc.search(doc.shapeOf(lab).value).Some?
                 then var s := doc.search(doc.shapeOf(lab).value).value; [(s, Surface), (s, Generic), (s, Curve)] else [];
    own + proto + found
  }

  /** The first lookup in the list that yields a colour. */
  function FirstColor(doc: ColorDoc, cands: seq<(Label, ColorKind)>): Option<Color>
  {
    if |cands| == 0 then None
    else if doc.colorOf(cands[0].0, cands[0].1).Some? then doc.colorOf(cands[0].0, cands[0].1)
    else FirstColor(doc, cands[1..])
  }

  /** FirstColor finds a colour exactly when some lookup has one, and then it is the
      colour of a lookup all of whose predecessors have none. */
  lemma {:induction false} FirstColorIsFirst(doc: ColorDoc, cands: seq<(Label, ColorKind)>)
    ensures FirstColor(doc, cands).None? <==> forall i :: 0 <= i < |cands| ==> doc.colorOf(cands[i].0, cands[i].1).None?
    ensures FirstColor(doc, cands).Some? ==>
      exists i :: 0 <= i < |cands| && doc.colorOf(cands[i].0, cands[i].1) == FirstColor(doc, cands)
                  && forall j :: 0 <= j < i ==> doc.colorOf(cands[j].0, cands[j].1).None?
  {
    if |cands| > 0 && doc.colorOf(cands[0].0, cands[0].1).None? {
      var tail := cands[1..];
      FirstColorIsFirst(doc, tail);
      assert forall i :: 1 <= i < |cands| ==> cands[i] == tail[i - 1];
      if FirstColor(doc, tail).Some? {
        var i :| 0 <= i < |tail| && doc.colorOf(tail[i].0, tail[i].1) == FirstColor(doc, tail)
                 && forall j :: 0 <= j < i ==> doc.colorOf(tail[j].0, tail[j].1).None?;
        assert cands[i + 1] == tail[i];
      }
    }
  }

  lemma FirstColorAppend(doc: ColorDoc, a: seq<(Label, ColorKind)>, b: seq<(Label, ColorKind)>)
    ensures FirstColor(doc, a + b) == if FirstColor(doc, a).Some? then FirstColor(doc, a) else FirstColor(doc, b)
  {
    if |a| > 0 {
      assert (a + b)[1..] == a[1..] + b;
      FirstColorAppend(doc, a[1..], b);
    } else {
      assert a + b == b;
    }
  }

  /** The three lookups on one label, in order, give its own colour. */
  lemma FirstColorOfLabel(doc: ColorDoc, x: Label)
    ensures FirstColor(doc, [(x, Surface), (x, Generic), (x, Curve)]) == OwnColor(doc, x)
  {
    var c: seq<(Label, ColorKind)> := [(x, Surface), (x, Generic), (x, Curve)];
    assert c[1..] == [(x, Generic), (x, Curve)];
    assert c[1..][1..] == [(x, Curve)];
    assert c[1..][1..][1..] == [];
    assert FirstColor(doc, c[1..][1..][1..]) == None;
    assert FirstColor(doc, c[1..][1..]) == doc.colorOf(x, Curve);
  }

  /** With a colour tool, the chain returns the colour of the first lookup, in priority
      order, that has one: no earlier lookup had a colour. */
  lemma EffectiveColorIsFirstCandidate(doc: ColorDoc, lab: Label)
    requires doc.hasColorTool
    ensures EffectiveColor(doc, lab) == FirstColor(doc, Candidates(doc, lab))
  {
    var own: seq<(Label, ColorKind)> := [(lab, Surface), (lab, Generic), (lab, Curve)];
    var proto: seq<(Label, ColorKind)> := if doc.referred(lab).Some? then var p := doc.referred(lab).value; [(p, Surface), (p, Generic), (p, Curve)] else [];
    var found: seq<(Label, ColorKind)> := if doc.shapeOf(lab).Some? && doc.search(doc.shapeOf(lab).value).Some?
                 then var s := doc.search(doc.shapeOf(lab).value).value; [(s, Surface), (s, Generic), (s, Curve)] else [];
    assert Candidates(doc, lab) == own + proto + found;
    FirstColorAppend(doc, own + proto, found);
    FirstColorAppend(doc, own, proto);
    FirstColorOfLabel(doc, lab);
    if doc.referred(lab).Some? {
      FirstColorOfLabel(doc, doc.referred(lab).value);
    }
    if found != [] {
      FirstColorOfLabel(doc, doc.search(doc.shapeOf(lab).value).value);
    }
  }

  /** ResolveColorRGBA: the effective colour with alpha 1, else the default unchanged. */
  function ResolveColorRGBA(doc: ColorDoc, lab: Label, defaultCol: RGBA): (c: RGBA)
    ensures EffectiveColor(doc, lab).None? ==> c == defaultCol
    ensures EffectiveColor(doc, lab).Some? ==> c.a == 1.0
    ensures EffectiveColor(doc, lab).Some? ==>
      var e := EffectiveColor(doc, lab).value; c == RGBA(e.red, e.green, e.blue, 1.0)
  {
    match EffectiveColor(doc, lab)
    case Some(qc) => RGBA(qc.red, qc.green, qc.blue, 1.0)
    case None => defaultCol
  }

  /** A label's own surface colour wins over everything else; without a colour tool the
      default is returned. */
  lemma ResolvePrefersOwnSurface(doc: ColorDoc, lab: Label, defaultCol: RGBA, c: Color)
    requires doc.hasColorTool && doc.colorOf(lab, Surface) == Some(c)
    ensures ResolveColorRGBA(doc, lab, defaultCol) == RGBA(c.red, c.green, c.blue, 1.0)
    ensures ResolveColorRGBA(doc.(hasColorTool := false), lab, defaultCol) == defaultCol
  {
  }
}
