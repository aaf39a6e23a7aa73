// The shader text preprocessor `shader_preprocessor`
// (src/render/shader_processing.rs). The source is cut at every `/*`; the
// text of a section before its first `*/` is its id. A marker
// `/*ID*/default/**/` whose id is defined is replaced by the definition;
// the section that follows an opened marker contributes only its text after
// `*/`, which drops the default.
module ShaderProcessing {
  import opened Wrappers

  // The definition list handed to the preprocessor: a name and an
  // optional replacement.
  type Definitions = seq<(string, Option<string>)>

  type DefinitionMap = map<string, Option<string>>

  const OPEN: string := "/*"
  const CLOSE: string := "*/"

  // ---------------------------------------------------------------------
  // Text search and splitting
  // ---------------------------------------------------------------------

  // d occurs in s starting at position i.
  predicate OccursAt(s: string, d: string, i: int)
  {
    0 <= i && i + |d| <= |s| && s[i..i + |d|] == d
  }

  // d occurs somewhere in s.
  predicate Contains(s: string, d: string)
  {
    exists i :: 0 <= i <= |s| && OccursAt(s, d, i)
  }

  // `str::split` with a non-empty delimiter: the pieces between the
  // leftmost non-overlapping occurrences of d, in order.
  function SplitOn(s: string, d: string): (pieces: seq<string>)
    requires |d| > 0
    ensures |pieces| >= 1
    decreases |s|
  {
    if |s| < |d| then [s]
    else if s[..|d|] == d then [""] + SplitOn(s[|d|..], d)
    else
      var rest := SplitOn(s[1..], d);
      [[s[0]] + rest[0]] + rest[1..]
  }

  // The pieces put back together with d between neighbours.
  function Join(pieces: seq<string>, d: string): string
  {
    if |pieces| == 0 then ""
    else if |pieces| == 1 then pieces[0]
    else pieces[0] + d + Join(pieces[1..], d)
  }

  // The pieces put together with nothing between them.
  function Concat(pieces: seq<string>): string
  {
    if |pieces| == 0 then "" else Concat(pieces[..|pieces| - 1]) + pieces[|pieces| - 1]
  }

  // The text with every leftmost non-overlapping occurrence of d deleted.
  function Strip(s: string, d: string): string
    requires |d| > 0
    decreases |s|
  {
    if |s| < |d| then s
    else if s[..|d|] == d then Strip(s[|d|..], d)
    else [s[0]] + Strip(s[1..], d)
  }

  // `str::split_once`: the text before and after the first occurrence of
  // d, or nothing when d does not occur.
  function SplitOnce(s: string, d: string): Option<(string, string)>
    requires |d| > 0
  {
    var pieces := SplitOn(s, d);
    if |pieces| == 1 then None else Some((pieces[0], Join(pieces[1..], d)))
  }

  // Splitting and joining with the same delimiter gives the text back.
  lemma {:induction false} JoinSplit(s: string, d: string)
    requires |d| > 0
    ensures Join(SplitOn(s, d), d) == s
    decreases |s|
  {
    if |s| < |d| {
    } else if s[..|d|] == d {
      var rest := SplitOn(s[|d|..], d);
      JoinSplit(s[|d|..], d);
      assert SplitOn(s, d) == [""] + rest;
      assert ([""] + rest)[1..] == rest;
      assert Join(SplitOn(s, d), d) == "" + d + s[|d|..];
      assert s == s[..|d|] + s[|d|..];
    } else {
      var rest := SplitOn(s[1..], d);
      JoinSplit(s[1..], d);
      var pieces := [[s[0]] + rest[0]] + rest[1..];
      assert SplitOn(s, d) == pieces;
      if |rest| == 1 {
        assert Join(pieces, d) == [s[0]] + s[1..];
      } else {
        assert pieces[1..] == rest[1..];
        assert Join(rest, d) == rest[0] + d + Join(rest[1..], d);
        assert Join(pieces, d) == [s[0]] + (rest[0] + d + Join(rest[1..], d));
      }
      assert s == [s[0]] + s[1..];
    }
  }

  // The first piece of a join is a prefix of it.
  lemma JoinPrefix(pieces: seq<string>, d: string)
    requires |pieces| >= 1
    ensures |pieces[0]| <= |Join(pieces, d)| && Join(pieces, d)[..|pieces[0]|] == pieces[0]
  {
    if |pieces| > 1 {
      assert Join(pieces, d) == pieces[0] + (d + Join(pieces[1..], d));
    }
  }

  // No piece of a split contains the delimiter.
  lemma {:induction false} SplitPiecesFree(s: string, d: string)
    requires |d| > 0
    ensures forall k :: 0 <= k < |SplitOn(s, d)| ==> !Contains(SplitOn(s, d)[k], d)
    decreases |s|
  {
    var pieces := SplitOn(s, d);
    if |s| < |d| {
      assert pieces == [s];
      forall i: nat ensures !OccursAt(s, d, i) {}
    } else if s[..|d|] == d {
      var rest := SplitOn(s[|d|..], d);
      SplitPiecesFree(s[|d|..], d);
      assert pieces == [""] + rest;
      forall k | 0 <= k < |pieces| ensures !Contains(pieces[k], d)
      {
        if k == 0 {
          forall i: nat ensures !OccursAt("", d, i) {}
        } else {
          assert pieces[k] == rest[k - 1];
        }
      }
    } else {
      var rest := SplitOn(s[1..], d);
      SplitPiecesFree(s[1..], d);
      var first := [s[0]] + rest[0];
      assert pieces == [first] + rest[1..];
      JoinSplit(s[1..], d);
      JoinPrefix(rest, d);
      assert s[1..][..|rest[0]|] == rest[0];
      assert |d| <= |first| ==> first[..|d|] == s[..|d|];
      forall i: nat ensures !OccursAt(first, d, i)
      {
        if i > 0 && OccursAt(first, d, i) {
          assert first[i..i + |d|] == rest[0][i - 1..i - 1 + |d|];
          assert OccursAt(rest[0], d, i - 1);
        }
      }
      forall k | 0 <= k < |pieces| ensures !Contains(pieces[k], d)
      {
        if k > 0 {
          assert pieces[k] == rest[k];
        }
      }
    }
  }

  // `split_once` finds nothing exactly when the delimiter does not occur;
  // otherwise the text is the part before, the delimiter and the part after,
  // and the part before holds no occurrence (the first one was taken).
  lemma SplitOnceSpec(s: string, d: string)
    requires |d| > 0
    ensures SplitOnce(s, d).None? <==> !Contains(s, d)
    ensures SplitOnce(s, d).Some? ==>
      && s == SplitOnce(s, d).value.0 + d + SplitOnce(s, d).value.1
      && !Contains(SplitOnce(s, d).value.0, d)
  {
    var pieces := SplitOn(s, d);
    JoinSplit(s, d);
    SplitPiecesFree(s, d);
    if |pieces| == 1 {
      assert !Contains(pieces[0], d);
    } else {
      assert s == pieces[0] + d + Join(pieces[1..], d);
      assert s[|pieces[0]|..|pieces[0]| + |d|] == d;
      assert OccursAt(s, d, |pieces[0]|);
    }
  }

  // Concatenating the pieces of a split deletes every delimiter.
  lemma {:induction false} ConcatSplit(s: string, d: string)
    requires |d| > 0
    ensures Concat(SplitOn(s, d)) == Strip(s, d)
    decreases |s|
  {
    if |s| < |d| {
      assert Concat([s]) == Concat([]) + s;
    } else if s[..|d|] == d {
      var rest := SplitOn(s[|d|..], d);
      ConcatSplit(s[|d|..], d);
      ConcatCons("", rest);
    } else {
      var rest := SplitOn(s[1..], d);
      ConcatSplit(s[1..], d);
      ConcatCons(rest[0], rest[1..]);
      assert [rest[0]] + rest[1..] == rest;
      ConcatCons([s[0]] + rest[0], rest[1..]);
    }
  }

  // Concat splits off its first piece.
  lemma {:induction false} ConcatCons(p: string, ps: seq<string>)
    ensures Concat([p] + ps) == p + Concat(ps)
    decreases |ps|
  {
    if |ps| == 0 {
      assert Concat([p]) == Concat([]) + p;
    } else {
      var init := ps[..|ps| - 1];
      ConcatCons(p, init);
      assert ([p] + ps)[..|ps|] == [p] + init;
      assert Concat([p] + ps) == Concat([p] + init) + ps[|ps| - 1];
      assert Concat(ps) == Concat(init) + ps[|ps| - 1];
    }
  }

  // ---------------------------------------------------------------------
  // The definition map
  // ---------------------------------------------------------------------

  // `HashMap::from_iter` over the definition list: entries are inserted in
  // order, so a later entry replaces an earlier one with the same name.
  function BuildMap(defs: Definitions): DefinitionMap
  {
    if |defs| == 0 then map[]
    else BuildMap(defs[..|defs| - 1])[defs[|defs| - 1].0 := defs[|defs| - 1].1]
  }

  // Entry j is the last one carrying its name.
  predicate LastEntry(defs: Definitions, j: int)
  {
    0 <= j < |defs| && forall l :: j < l < |defs| ==> defs[l].0 != defs[j].0
  }

  // A name is in the map exactly when some entry carries it.
  lemma {:induction false} BuildMapKeys(defs: Definitions)
    ensures forall name :: name in BuildMap(defs) <==> exists j :: 0 <= j < |defs| && defs[j].0 == name
  {
    if |defs| > 0 {
      var init := defs[..|defs| - 1];
      var last := defs[|defs| - 1];
      BuildMapKeys(init);
      assert BuildMap(defs) == BuildMap(init)[last.0 := last.1];
      forall name ensures name in BuildMap(defs) <==> exists j :: 0 <= j < |defs| && defs[j].0 == name
      {
        if name == last.0 {
          assert defs[|defs| - 1].0 == name;
        } else {
          assert (exists j :: 0 <= j < |init| && init[j].0 == name) <==>
                 (exists j :: 0 <= j < |defs| && defs[j].0 == name) by {
            assert forall j :: 0 <= j < |init| ==> init[j] == defs[j];
          }
        }
      }
    }
  }

  // A name maps to the value of the last entry that carries it.
  lemma {:induction false} BuildMapLast(defs: Definitions, j: int)
    requires LastEntry(defs, j)
    ensures defs[j].0 in BuildMap(defs) && BuildMap(defs)[defs[j].0] == defs[j].1
  {
    var init := defs[..|defs| - 1];
    var last := defs[|defs| - 1];
    assert BuildMap(defs) == BuildMap(init)[last.0 := last.1];
    if j < |init| {
      assert init[j] == defs[j];
      assert last.0 != defs[j].0;
      assert LastEntry(init, j) by {
        forall l | j < l < |init| ensures init[l].0 != init[j].0 {
          assert init[l] == defs[l];
        }
      }
      BuildMapLast(init, j);
    }
  }

  // ---------------------------------------------------------------------
  // The section loop
  // ---------------------------------------------------------------------

  // A section's id and back part: the text before and after its first
  // `*/`, or the whole section and nothing when it has no `*/`.
  function Parts(section: string): (string, string)
  {
    match SplitOnce(section, CLOSE)
    case Some(p) => p
    case None => (section, "")
  }

  // What an id and back part mean for the section they come from.
  lemma PartsSpec(section: string)
    ensures Contains(section, CLOSE) ==>
      && section == Parts(section).0 + CLOSE + Parts(section).1
      && !Contains(Parts(section).0, CLOSE)
    ensures !Contains(section, CLOSE) ==> Parts(section) == (section, "")
  {
    SplitOnceSpec(section, CLOSE);
  }

  // `unwrap_or_default` on a definition: a missing value is empty text.
  function Replacement(value: Option<string>): string
  {
    match value
    case Some(text) => text
    case None => ""
  }

  // One section's contribution to the output, and the flag after it. A
  // defined id opens a marker (emitting the definition) or, when one is
  // already open, is copied; an undefined id closes an opened marker
  // (emitting only the back part) or is copied.
  function Step(m: DefinitionMap, open: bool, section: string): (string, bool)
  {
    var (id, back) := Parts(section);
    if id in m then
      if !open then (Replacement(m[id]), true) else (section, true)
    else
      if open then (back, false) else (section, false)
  }

  // The output and the flag after the first n sections.
  function Process(m: DefinitionMap, sections: seq<string>, n: nat): (string, bool)
    requires n <= |sections|
  {
    if n == 0 then ("", false)
    else
      var (text, open) := Process(m, sections, n - 1);
      var (piece, open') := Step(m, open, sections[n - 1]);
      (text + piece, open')
  }

  // The preprocessed shader text.
  function Preprocess(source: string, definitions: Definitions): string
  {
    var sections := SplitOn(source, OPEN);
    Process(BuildMap(definitions), sections, |sections|).0
  }

  // `shader_preprocessor`: walks the `/*`-separated sections once,
  // appending to the output and keeping the is-opened flag.
  method ShaderPreprocessor(source: string, definitions: Definitions) returns (newSource: string)
    ensures newSource == Preprocess(source, definitions)
  {
    var definitionsMap := BuildMap(definitions);
    var sections := SplitOn(source, OPEN);
    newSource := "";
    var isOpened := false;
    for i := 0 to |sections|
      invariant (newSource, isOpened) == Process(definitionsMap, sections, i)
    {
      var section := sections[i];
      var (id, back) := Parts(section);
      if id in definitionsMap {
        if !isOpened {
          newSource := newSource + Replacement(definitionsMap[id]);
          isOpened := true;
        } else {
          newSource := newSource + section;
        }
      } else {
        if isOpened {
          newSource := newSource + back;
          isOpened := false;
        } else {
          newSource := newSource + section;
        }
      }
    }
  }

  // ---------------------------------------------------------------------
  // Properties of the preprocessor
  // ---------------------------------------------------------------------

  // While no section's id is defined, nothing is ever open and every
  // section is copied as it is.
  lemma {:induction false} UndefinedCopies(m: DefinitionMap, sections: seq<string>, n: nat)
    requires n <= |sections|
    requires forall k :: 0 <= k < n ==> Parts(sections[k]).0 !in m
    ensures Process(m, sections, n) == (Concat(sections[..n]), false)
  {
    if n > 0 {
      UndefinedCopies(m, sections, n - 1);
      assert sections[..n][..n - 1] == sections[..n - 1];
    }
  }

  // With no definitions the output is the source with every `/*` deleted.
  lemma NoDefinitionsStrips(source: string)
    ensures Preprocess(source, []) == Strip(source, OPEN)
  {
    var sections := SplitOn(source, OPEN);
    UndefinedCopies(map[], sections, |sections|);
    assert sections[..|sections|] == sections;
    ConcatSplit(source, OPEN);
  }

  // A source without `/*` is one section: it is kept unless its whole id
  // is itself a defined name, in which case the definition replaces it.
  lemma SingleSection(source: string, definitions: Definitions)
    requires !Contains(source, OPEN)
    ensures var id := Parts(source).0;
      Preprocess(source, definitions) ==
        if id in BuildMap(definitions) then Replacement(BuildMap(definitions)[id]) else source
  {
    SplitWithout(source, OPEN);
    var sections := SplitOn(source, OPEN);
    var m := BuildMap(definitions);
    var step := Step(m, false, source);
    assert Process(m, sections, 1) == ("" + step.0, step.1);
    assert "" + step.0 == step.0;
  }

  // While a marker is open, a section without `*/` whose whole text is not
  // a defined name closes it and contributes nothing.
  lemma OpenClosedByBareSection(m: DefinitionMap, section: string)
    requires !Contains(section, CLOSE) && section !in m
    ensures Step(m, true, section) == ("", false)
  {
    PartsSpec(section);
  }

  // The marker pattern: after a closed section, a section `ID*/fallback`
  // with ID defined and a section `*/rest` whose empty id is undefined
  // emit the definition followed by rest, and leave the flag closed.
  lemma MarkerReplaced(m: DefinitionMap, sections: seq<string>, n: nat, id: string, fallback: string, rest: string)
    requires n + 2 <= |sections| && !Process(m, sections, n).1
    requires !Contains(id, CLOSE) && id in m && "" !in m
    requires sections[n] == id + CLOSE + fallback && sections[n + 1] == CLOSE + rest
    ensures Process(m, sections, n + 2) == (Process(m, sections, n).0 + Replacement(m[id]) + rest, false)
  {
    PartsAfterId(id, fallback);
    PartsAfterId("", rest);
    assert !Contains("", CLOSE) by {
      forall i: nat ensures !OccursAt("", CLOSE, i) {}
    }
    assert "" + CLOSE + rest == CLOSE + rest;
  }

  // Two occurrences of `*/` never start at neighbouring positions.
  lemma NoAdjacentClose(t: string, i: int)
    requires OccursAt(t, CLOSE, i)
    ensures !OccursAt(t, CLOSE, i + 1)
  {
    assert t[i + 1] == '/';
  }

  // The id of `id*/back` is id when id holds no `*/`.
  lemma PartsAfterId(id: string, back: string)
    requires !Contains(id, CLOSE)
    ensures Parts(id + CLOSE + back) == (id, back)
  {
    var section := id + CLOSE + back;
    assert OccursAt(section, CLOSE, |id|);
    PartsSpec(section);
    var a, b := Parts(section).0, Parts(section).1;
    assert section == a + CLOSE + b;
    assert OccursAt(section, CLOSE, |a|);
    NoAdjacentClose(section, |a|);
    NoAdjacentClose(section, |id|);
    assert |id| + 2 <= |a| ==> OccursAt(a, CLOSE, |id|) by {
      if |id| + 2 <= |a| {
        assert a[|id|..|id| + 2] == section[|id|..|id| + 2];
      }
    }
    assert |a| + 2 <= |id| ==> OccursAt(id, CLOSE, |a|) by {
      if |a| + 2 <= |id| {
        assert id[|a|..|a| + 2] == section[|a|..|a| + 2];
      }
    }
    assert |a| == |id|;
    assert a == section[..|a|] == id;
    assert b == section[|a| + 2..] == back;
  }

  // Text free of `/*`, then `/*`, then more text: the first section is
  // that free text and the rest is split further.
  lemma {:induction false} SplitAtFirstOpen(x: string, y: string)
    requires !Contains(x, OPEN)
    ensures SplitOn(x + OPEN + y, OPEN) == [x] + SplitOn(y, OPEN)
    decreases |x|
  {
    var s := x + OPEN + y;
    if |x| == 0 {
      assert s[..2] == OPEN && s[2..] == y;
    } else {
      assert |x| >= 2 ==> x[..2] == s[..2] && !OccursAt(x, OPEN, 0);
      assert |x| == 1 ==> s[1] == '/';
      assert s[..2] != OPEN;
      assert !Contains(x[1..], OPEN) by {
        forall i: nat ensures !OccursAt(x[1..], OPEN, i)
        {
          if OccursAt(x[1..], OPEN, i) {
            assert x[i + 1..i + 3] == x[1..][i..i + 2];
            assert OccursAt(x, OPEN, i + 1);
          }
        }
      }
      SplitAtFirstOpen(x[1..], y);
      assert s[1..] == x[1..] + OPEN + y;
      assert [x[0]] + x[1..] == x;
    }
  }

  // Text free of a delimiter is a single piece.
  lemma SplitWithout(s: string, d: string)
    requires |d| > 0 && !Contains(s, d)
    ensures SplitOn(s, d) == [s]
  {
    SplitPiecesFree(s, d);
    JoinSplit(s, d);
    var pieces := SplitOn(s, d);
    assert |pieces| > 1 ==> s == pieces[0] + d + Join(pieces[1..], d);
    assert |pieces| > 1 ==> OccursAt(s, d, |pieces[0]|);
  }

  // The source `pre/*ID*/fallback/**/post`: one marker between two texts.
  function MarkerSource(pre: string, id: string, fallback: string, post: string): string
  {
    pre + OPEN + ((id + CLOSE + fallback) + OPEN + (CLOSE + post))
  }

  // The sections of a marker source: the text before, the marker with its
  // fallback, and the closing `*/` with the text after.
  lemma MarkerSections(pre: string, id: string, fallback: string, post: string)
    requires !Contains(pre, OPEN) && !Contains(id + CLOSE + fallback, OPEN) && !Contains(CLOSE + post, OPEN)
    ensures SplitOn(MarkerSource(pre, id, fallback, post), OPEN) == [pre, id + CLOSE + fallback, CLOSE + post]
  {
    var marker := id + CLOSE + fallback;
    SplitWithout(CLOSE + post, OPEN);
    SplitAtFirstOpen(marker, CLOSE + post);
    SplitAtFirstOpen(pre, marker + OPEN + (CLOSE + post));
  }

  // With ID defined, the marker and its fallback become the definition and
  // the text around it is kept.
  lemma DefinedMarker(pre: string, id: string, fallback: string, post: string, definitions: Definitions)
    requires !Contains(pre, OPEN) && Parts(pre).0 !in BuildMap(definitions)
    requires !Contains(id + CLOSE + fallback, OPEN) && !Contains(id, CLOSE) && id in BuildMap(definitions)
    requires !Contains(CLOSE + post, OPEN) && "" !in BuildMap(definitions)
    ensures Preprocess(MarkerSource(pre, id, fallback, post), definitions)
      == pre + Replacement(BuildMap(definitions)[id]) + post
  {
    var m := BuildMap(definitions);
    MarkerSections(pre, id, fallback, post);
    var sections := [pre, id + CLOSE + fallback, CLOSE + post];
    assert Process(m, sections, 1) == ("" + pre, false);
    MarkerReplaced(m, sections, 1, id, fallback, post);
    assert "" + pre == pre;
  }

  // With ID undefined nothing is replaced, and every section is copied
  // without its `/*` opener, so the marker's comments no longer pair up.
  lemma UndefinedMarker(pre: string, id: string, fallback: string, post: string, definitions: Definitions)
    requires !Contains(pre, OPEN) && Parts(pre).0 !in BuildMap(definitions)
    requires !Contains(id + CLOSE + fallback, OPEN) && !Contains(id, CLOSE) && id !in BuildMap(definitions)
    requires !Contains(CLOSE + post, OPEN) && "" !in BuildMap(definitions)
    ensures Preprocess(MarkerSource(pre, id, fallback, post), definitions)
      == pre + (id + CLOSE + fallback) + (CLOSE + post)
  {
    var m := BuildMap(definitions);
    MarkerSections(pre, id, fallback, post);
    var marker, closing := id + CLOSE + fallback, CLOSE + post;
    var sections := [pre, marker, closing];
    PartsAfterId(id, fallback);
    PartsAfterId("", post);
    assert "" + CLOSE + post == closing;
    assert Process(m, sections, 1) == ("" + pre, false);
    assert Process(m, sections, 2) == ("" + pre + marker, false);
    assert Process(m, sections, 3) == ("" + pre + marker + closing, false);
    assert "" + pre + marker + closing == pre + marker + closing;
  }
}
