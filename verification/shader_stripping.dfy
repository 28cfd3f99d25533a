/**
  Build-time shader-variant stripping of the Crest underwater post-process shader.

  A variant is the set of keywords one compiled permutation enables. Every
  user-defined keyword that is neither exempt nor enabled on some ocean material
  is "unused", and every variant enabling an unused keyword is deleted in place.
 */
module ShaderStripping {
  import opened Strings

  /** Unity's classification of a shader keyword; only `UserDefined` ones are ever stripped. */
  datatype KeywordType = None | BuiltinDefault | BuiltinExtra | BuiltinAutoStripped | UserDefined | Plugin

  datatype Keyword = Keyword(name: string, kind: KeywordType)

  /** The keywords one compiled variant enables (its shader keyword set). */
  type Variant = set<Keyword>

  /** An ocean material, seen only through the names of the keywords enabled on it. */
  type Material = set<string>

  /**
    The build processor's state: the two counters it accumulates over a build and
    the ocean materials collected from the scenes being built.
   */
  datatype BuildProcessor = BuildProcessor(variantCount: nat, strippedCount: nat, oceanMaterials: seq<Material>)

  const UnderwaterShaderName: string := "Crest/Underwater/Post Process"
  const CrestShaderPrefix: string := "Crest"

  /** Keywords driven by something other than the ocean material, so never stripped. */
  predicate IsExempt(name: string)
  {
    || Contains(name, "_MENISCUS")
    || Contains(name, "_FULL_SCREEN_EFFECT")
    || Contains(name, "_DEBUG_VIEW_OCEAN_MASK")
  }

  predicate IsKeywordEnabled(material: Material, name: string)
  {
    name in material
  }

  predicate EnabledOnSomeMaterial(materials: seq<Material>, name: string)
  {
    exists j :: 0 <= j < |materials| && IsKeywordEnabled(materials[j], name)
  }

  /** Union of the keyword sets of all variants. */
  function AllKeywords(data: seq<Variant>): set<Keyword>
  {
    if |data| == 0 then {} else AllKeywords(data[..|data| - 1]) + data[|data| - 1]
  }

  /** The keywords the strip treats as unused, stated rule by rule. */
  function UnusedKeywords(data: seq<Variant>, materials: seq<Material>): set<Keyword>
  {
    set k | k in AllKeywords(data) && k.kind == UserDefined && !IsExempt(k.name)
                                   && !EnabledOnSomeMaterial(materials, k.name)
  }

  /** The variant enables at least one keyword of `unused`. */
  predicate Strippable(v: Variant, unused: set<Keyword>)
  {
    exists k :: k in v && k in unused
  }

  /** Reference definition of the strip: the variants that enable no unused keyword, in order. */
  function Retain(data: seq<Variant>, unused: set<Keyword>): seq<Variant>
  {
    if |data| == 0 then []
    else
      var last := data[|data| - 1];
      Retain(data[..|data| - 1], unused) + (if Strippable(last, unused) then [] else [last])
  }

  /** The whole stripping pass applied to one shader's variant list. */
  function StripPass(data: seq<Variant>, materials: seq<Material>): seq<Variant>
  {
    Retain(data, UnusedKeywords(data, materials))
  }

  /** `a` is obtained from `b` by deleting elements, keeping the order of the rest. */
  ghost predicate IsSubsequence<T>(a: seq<T>, b: seq<T>)
    decreases |b|
  {
    if |b| == 0 then |a| == 0
    else
      || IsSubsequence(a, b[..|b| - 1])
      || (|a| > 0 && a[|a| - 1] == b[|b| - 1] && IsSubsequence(a[..|a| - 1], b[..|b| - 1]))
  }

  // ---------------------------------------------------------------------------
  // Operations

  /** Collects every keyword of every variant, one `UnionWith` per variant. */
  method CollectKeywords(data: seq<Variant>) returns (all: set<Keyword>)
    ensures forall k :: k in all <==> exists i :: 0 <= i < |data| && k in data[i]
    ensures all == AllKeywords(data)
  {
    all := {};
    for i := 0 to |data|
      invariant forall k :: k in all <==> exists j :: 0 <= j < i && k in data[j]
      invariant all == AllKeywords(data[..i])
    {
      assert data[..i + 1][..i] == data[..i];
      all := all + data[i];
    }
    assert data[..|data|] == data;
  }

  /** Searches the ocean materials in order and stops at the first one enabling `name`. */
  method AnyMaterialEnables(materials: seq<Material>, name: string) returns (found: bool)
    ensures found <==> exists j :: 0 <= j < |materials| && name in materials[j]
  {
    found := false;
    var j := 0;
    while j < |materials|
      invariant 0 <= j <= |materials|
      invariant !found
      invariant forall i :: 0 <= i < j ==> name !in materials[i]
    {
      if IsKeywordEnabled(materials[j], name) {
        found := true;
        break;
      }
      j := j + 1;
    }
  }

  /**
    Partitions the collected keywords into used and unused. Built-in keywords,
    exempt names and names enabled on an ocean material are used; the rest of the
    collected keywords are unused.
   */
  method CollectUnusedKeywords(data: seq<Variant>, materials: seq<Material>) returns (unused: set<Keyword>)
    ensures forall k :: k in unused ==> exists i :: 0 <= i < |data| && k in data[i]
    ensures forall k :: k in unused ==> k.kind == UserDefined
    ensures forall k :: k in unused ==>
              && !Contains(k.name, "_MENISCUS")
              && !Contains(k.name, "_FULL_SCREEN_EFFECT")
              && !Contains(k.name, "_DEBUG_VIEW_OCEAN_MASK")
    ensures forall k :: k in unused ==> forall j :: 0 <= j < |materials| ==> k.name !in materials[j]
    ensures forall i, k ::
              (0 <= i < |data| && k in data[i] && k.kind == UserDefined && !IsExempt(k.name)
               && !EnabledOnSomeMaterial(materials, k.name)) ==> k in unused
    ensures unused == UnusedKeywords(data, materials)
  {
    var all := CollectKeywords(data);
    var used: set<Keyword> := {};
    var pending := all;
    while pending != {}
      invariant pending <= all
      invariant used <= all - pending
      invariant forall k :: k in all - pending ==>
                  (k in used <==> k.kind != UserDefined || IsExempt(k.name) || EnabledOnSomeMaterial(materials, k.name))
      decreases pending
    {
      var k :| k in pending;
      pending := pending - {k};
      if k.kind != UserDefined {
        used := used + {k};
        continue;
      }
      if Contains(k.name, "_MENISCUS") || Contains(k.name, "_FULL_SCREEN_EFFECT") {
        used := used + {k};
        continue;
      }
      if Contains(k.name, "_DEBUG_VIEW_OCEAN_MASK") {
        used := used + {k};
        continue;
      }
      var enabled := AnyMaterialEnables(materials, k.name);
      if enabled {
        used := used + {k};
      }
    }
    unused := all - used;
  }

  /** Iterates the unused keywords and stops at the first one the variant enables. */
  method EnablesAny(v: Variant, unused: set<Keyword>) returns (found: bool)
    ensures found <==> exists k :: k in v && k in unused
  {
    found := false;
    var pending := unused;
    while pending != {}
      invariant pending <= unused
      invariant forall k :: k in unused - pending ==> k !in v
      decreases pending
    {
      var k :| k in pending;
      if k in v {
        found := true;
        break;
      }
      pending := pending - {k};
    }
  }

  /**
    The in-place strip loop: a variant enabling an unused keyword is removed at
    `index`, and `index` steps back so the element that slid into its place is
    examined next.
   */
  method StripVariants(data: seq<Variant>, unused: set<Keyword>) returns (kept: seq<Variant>, stripped: nat)
    ensures kept == Retain(data, unused)
    ensures stripped == |data| - |kept|
  {
    kept := data;
    stripped := 0;
    var index: int := 0;
    while index < |kept|
      invariant 0 <= index <= |kept|
      invariant |kept| + stripped == |data|
      invariant kept[..index] == Retain(data[..index + stripped], unused)
      invariant kept[index..] == data[index + stripped..]
      decreases |kept| - index
    {
      var consumed := index + stripped;
      assert kept[index] == data[consumed];
      assert data[..consumed + 1][..consumed] == data[..consumed];
      var enabled := EnablesAny(kept[index], unused);
      if enabled {
        kept := kept[..index] + kept[index + 1..];
        stripped := stripped + 1;
        index := index - 1;
      } else {
        assert kept[..index + 1] == kept[..index] + [kept[index]];
      }
      index := index + 1;
    }
    assert data[..|data|] == data;
  }

  /**
    Strips the underwater shader's variants against the collected ocean materials
    and adds the number removed to the processor's stripped counter.
   */
  method ProcessUnderwaterShader(p: BuildProcessor, data: seq<Variant>) returns (p': BuildProcessor, data': seq<Variant>)
    ensures |data| == 0 ==> p' == p && data' == data
    ensures |data'| <= |data|
    ensures p' == p.(strippedCount := p.strippedCount + (|data| - |data'|))
    ensures data' == StripPass(data, p.oceanMaterials)
    ensures forall v :: multiset(data')[v] ==
              if Strippable(v, UnusedKeywords(data, p.oceanMaterials)) then 0 else multiset(data)[v]
  {
    if |data| == 0 {
      return p, data;
    }
    var unused := CollectUnusedKeywords(data, p.oceanMaterials);
    var stripped;
    data', stripped := StripVariants(data, unused);
    p' := p.(strippedCount := p.strippedCount + stripped);
    RetainMultiplicity(data, unused);
  }

  /**
    The shader-preprocessing callback: counts the variants of every Crest shader
    and strips only the underwater post-process shader.
   */
  method OnProcessShader(p: BuildProcessor, shaderName: string, data: seq<Variant>) returns (p': BuildProcessor, data': seq<Variant>)
    ensures p'.variantCount == p.variantCount + (if StartsWith(shaderName, CrestShaderPrefix) then |data| else 0)
    ensures p'.oceanMaterials == p.oceanMaterials
    ensures shaderName != UnderwaterShaderName ==> data' == data && p'.strippedCount == p.strippedCount
    ensures shaderName == UnderwaterShaderName ==>
              data' == StripPass(data, p.oceanMaterials) && p'.strippedCount == p.strippedCount + (|data| - |data'|)
  {
    p' := p;
    data' := data;
    if StartsWith(shaderName, CrestShaderPrefix) {
      p' := p'.(variantCount := p'.variantCount + |data|);
    }
    if shaderName == UnderwaterShaderName {
      p', data' := ProcessUnderwaterShader(p', data);
    }
  }

  // ---------------------------------------------------------------------------
  // Properties of the strip

  /** Exactly the keywords occurring in some variant are collected. */
  lemma {:induction false} AllKeywordsMembership(data: seq<Variant>, k: Keyword)
    ensures k in AllKeywords(data) <==> exists i :: 0 <= i < |data| && k in data[i]
  {
    if |data| > 0 {
      var init := data[..|data| - 1];
      AllKeywordsMembership(init, k);
      if k in AllKeywords(init) {
        var i :| 0 <= i < |init| && k in init[i];
        assert data[i] == init[i];
      }
      if exists i :: 0 <= i < |data| && k in data[i] {
        var i :| 0 <= i < |data| && k in data[i];
        if i < |data| - 1 {
          assert init[i] == data[i];
        }
      }
    }
  }

  /** The unused set never reaches outside the keywords the variants enable. */
  lemma UnusedWithinAllKeywords(data: seq<Variant>, materials: seq<Material>, k: Keyword)
    requires k in UnusedKeywords(data, materials)
    ensures exists i :: 0 <= i < |data| && k in data[i]
  {
    AllKeywordsMembership(data, k);
  }

  /** With no ocean material at all, every collected non-exempt user-defined keyword is unused. */
  lemma NoMaterialsStripsAllUserKeywords(data: seq<Variant>, k: Keyword, i: int)
    requires 0 <= i < |data| && k in data[i]
    requires k.kind == UserDefined && !IsExempt(k.name)
    ensures k in UnusedKeywords(data, [])
    ensures forall v :: v in StripPass(data, []) ==> k !in v
  {
    AllKeywordsMembership(data, k);
    RetainLeavesNothingStrippable(data, UnusedKeywords(data, []));
  }

  /** The retained variants are an order-preserving subsequence of the input. */
  lemma {:induction false} RetainIsSubsequence(data: seq<Variant>, unused: set<Keyword>)
    ensures IsSubsequence(Retain(data, unused), data)
  {
    if |data| > 0 {
      var init := data[..|data| - 1];
      var last := data[|data| - 1];
      RetainIsSubsequence(init, unused);
      var r := Retain(data, unused);
      if Strippable(last, unused) {
        assert r == Retain(init, unused);
        assert IsSubsequence(r, data[..|data| - 1]);
      } else {
        assert r[..|r| - 1] == Retain(init, unused);
        assert r[|r| - 1] == data[|data| - 1];
      }
    }
  }

  /** No retained variant enables an unused keyword. */
  lemma {:induction false} RetainLeavesNothingStrippable(data: seq<Variant>, unused: set<Keyword>)
    ensures forall v :: v in Retain(data, unused) ==> !Strippable(v, unused)
  {
    if |data| > 0 {
      RetainLeavesNothingStrippable(data[..|data| - 1], unused);
    }
  }

  /**
    Every copy of a variant without an unused keyword is kept, and every copy of a
    variant with one is removed.
   */
  lemma {:induction false} RetainMultiplicity(data: seq<Variant>, unused: set<Keyword>)
    ensures forall v :: multiset(Retain(data, unused))[v] ==
              if Strippable(v, unused) then 0 else multiset(data)[v]
  {
    if |data| > 0 {
      var init := data[..|data| - 1];
      var last := data[|data| - 1];
      RetainMultiplicity(init, unused);
      assert data == init + [last];
      assert multiset(data) == multiset(init) + multiset{last};
    }
  }

  /** A list none of whose variants is strippable is left exactly as it is. */
  lemma {:induction false} RetainKeepsClean(data: seq<Variant>, unused: set<Keyword>)
    requires forall v :: v in data ==> !Strippable(v, unused)
    ensures Retain(data, unused) == data
  {
    if |data| > 0 {
      var init := data[..|data| - 1];
      RetainKeepsClean(init, unused);
      assert data == init + [data[|data| - 1]];
    }
  }

  /** Every keyword of a retained variant was a keyword of the input. */
  lemma RetainKeywordsWithinInput(data: seq<Variant>, unused: set<Keyword>)
    ensures AllKeywords(Retain(data, unused)) <= AllKeywords(data)
  {
    var r := Retain(data, unused);
    RetainMultiplicity(data, unused);
    forall k | k in AllKeywords(r)
      ensures k in AllKeywords(data)
    {
      AllKeywordsMembership(r, k);
      var i :| 0 <= i < |r| && k in r[i];
      assert multiset(r)[r[i]] > 0;
      assert r[i] in data;
      var j :| 0 <= j < |data| && data[j] == r[i];
      AllKeywordsMembership(data, k);
    }
  }

  /** Stripping an already stripped list, against the same materials, removes nothing. */
  lemma StripPassIdempotent(data: seq<Variant>, materials: seq<Material>)
    ensures StripPass(StripPass(data, materials), materials) == StripPass(data, materials)
  {
    var unused := UnusedKeywords(data, materials);
    var out := Retain(data, unused);
    RetainKeywordsWithinInput(data, unused);
    RetainLeavesNothingStrippable(data, unused);
    var unused' := UnusedKeywords(out, materials);
    assert unused' <= unused;
    RetainKeepsClean(out, unused');
  }

  /** A variant whose every keyword is built-in, exempt or enabled on an ocean material keeps all its copies. */
  lemma VariantOfUsedKeywordsKept(data: seq<Variant>, materials: seq<Material>, v: Variant)
    requires forall k :: k in v ==> k.kind != UserDefined || IsExempt(k.name) || EnabledOnSomeMaterial(materials, k.name)
    ensures multiset(StripPass(data, materials))[v] == multiset(data)[v]
  {
    RetainMultiplicity(data, UnusedKeywords(data, materials));
  }

  /** A variant enabling a non-exempt user-defined keyword that no ocean material enables is removed. */
  lemma VariantWithUnusedKeywordRemoved(data: seq<Variant>, materials: seq<Material>, v: Variant, k: Keyword)
    requires v in data && k in v
    requires k.kind == UserDefined && !IsExempt(k.name) && !EnabledOnSomeMaterial(materials, k.name)
    ensures v !in StripPass(data, materials)
  {
    var i :| 0 <= i < |data| && data[i] == v;
    AllKeywordsMembership(data, k);
    RetainLeavesNothingStrippable(data, UnusedKeywords(data, materials));
  }

  /**
    Worked example: variants {}, {A}, {B}, {A, B} of two user-defined keywords, with
    one ocean material enabling A only. B is unused, so the two variants enabling B
    are stripped.
   */
  lemma ExampleStripsKeywordNoMaterialEnables()
    ensures var a, b := Keyword("A", UserDefined), Keyword("B", UserDefined);
            StripPass([{}, {a}, {b}, {a, b}], [{"A"}]) == [{}, {a}]
  {
    var a, b := Keyword("A", UserDefined), Keyword("B", UserDefined);
    var data: seq<Variant> := [{}, {a}, {b}, {a, b}];
    var materials: seq<Material> := [{"A"}];
    assert data[..1][..0] == [] && data[..2][..1] == data[..1] && data[..3][..2] == data[..2];
    assert data[..4] == data && data[..3][2] == {b};
    assert AllKeywords(data[..1]) == {};
    assert AllKeywords(data[..2]) == {a};
    assert AllKeywords(data[..3]) == {a, b};
    assert AllKeywords(data) == {a, b};
    assert IsKeywordEnabled(materials[0], "A");
    assert !IsExempt("B");
    var u := UnusedKeywords(data, materials);
    assert u == {b};
    assert !Strippable({}, u) && !Strippable({a}, u);
    assert b in {b} && b in {a, b};
    assert Retain(data[..1], u) == [{}];
    assert Retain(data[..2], u) == [{}, {a}];
    assert Retain(data[..3], u) == [{}, {a}];
  }
}
