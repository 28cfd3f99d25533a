# Crest Ocean System: shader stripping, LOD-input registrar, predicated fields

This project models three small pieces of pure logic from the Crest ocean
renderer for Unity, and proves properties of them in Dafny.

1. **Shader-variant stripping** (`ShaderStripping`, `shader_stripping.dfy`).
   This models the build processor's shader-preprocessing callback.
   - Every shader whose name starts with `Crest` adds its variant count to a running total.
   - The underwater post-process shader then has its variants stripped.
   - A variant is the set of keywords it enables. An ocean material is the set of keyword names enabled on it.
   - A keyword is *unused* when it is user-defined, its name contains none of `_MENISCUS`, `_FULL_SCREEN_EFFECT` and `_DEBUG_VIEW_OCEAN_MASK`, and no ocean material enables it.
   - Every variant that enables an unused keyword is deleted in place, and the deletions are counted.
   - The strip loop is modelled as written, including the `RemoveAt(index--)` step back. `StripVariants` is proved to leave exactly `Retain`'s result.
2. **LOD-input registrar** (`LodInputRegistrar`, `lod_input_registrar.dfy`).
   This models the static dictionary from an LOD data manager type to the inputs registered against it.
   - Entries are created on first lookup (get-or-create).
   - `OnEnable` appends an input and `OnDisable` removes its first occurrence.
   - Static initialisation resets the dictionary.
   - Consistency invariant: for each type, the list holds exactly the enabled inputs of that type, each once.
3. **Predicated fields** (`PredicatedField`, `predicated_field.dfy`).
   This models the inspector rule that enables or disables a field according to a sibling property.
   - The sibling's serialized type name selects the case: `int`, `bool`, `float`, `Enum`, or a `PPtr…` object reference.
   - `inverted` flips the outcome for every supported type.
   - An unsupported type always leaves the field enabled, whatever `inverted` says.
   - If the sibling is not found, the GUI state is left unchanged.

`Strings` (`strings.dfy`) supplies ordinal `StartsWith` and `Contains`. `Contains` is proved equal to "the fragment occurs at some position".

Facts about the stripping model:
- The exempt fragments are the three hard-coded at `BuildProcessor.cs` lines 100 and 107.
- The ocean materials are a list. `OnProcessScene` appends to it once per processed scene and never clears it, so one material may appear more than once.
- The variant list is stripped in place.

## Model

| member | source | states |
|---|---|---|
| Strings.Contains | crest/Assets/Crest/Crest/Scripts/Editor/BuildProcessor.cs:100-107 | the ordinal substring test holds exactly when the fragment occurs at some position of the name |
| ShaderStripping.CollectKeywords | crest/Assets/Crest/Crest/Scripts/Editor/BuildProcessor.cs:74-83 | the collected set holds exactly the keywords that occur in some variant, and equals the recursive union `AllKeywords` |
| ShaderStripping.AnyMaterialEnables | crest/Assets/Crest/Crest/Scripts/Editor/BuildProcessor.cs:113-120 | the search that stops at the first match reports true exactly when some ocean material enables the name |
| ShaderStripping.CollectUnusedKeywords | crest/Assets/Crest/Crest/Scripts/Editor/BuildProcessor.cs:85-124 | every unused keyword occurs in some variant, is user-defined, contains none of the three exempt fragments and is enabled on no ocean material; every collected keyword meeting those conditions is unused |
| ShaderStripping.EnablesAny | crest/Assets/Crest/Crest/Scripts/Editor/BuildProcessor.cs:128-137 | the inner search that stops at the first hit reports true exactly when the variant enables some unused keyword |
| ShaderStripping.StripVariants | crest/Assets/Crest/Crest/Scripts/Editor/BuildProcessor.cs:126-138 | the in-place loop with the `index--` step back leaves exactly the reference filter's result, and the stripped counter equals input length minus output length |
| ShaderStripping.ProcessUnderwaterShader | crest/Assets/Crest/Crest/Scripts/Editor/BuildProcessor.cs:63-141 | an empty list is left alone and the counter is unchanged; otherwise the output is the whole stripping pass `StripPass`, each variant keeps all its copies when it enables no unused keyword and loses all of them otherwise (so no kept variant enables an unused keyword), and the stripped counter grows by input length minus output length while the rest of the processor is unchanged |
| ShaderStripping.OnProcessShader | crest/Assets/Crest/Crest/Scripts/Editor/BuildProcessor.cs:47-58 | the variant total grows by the list length only for names starting with `Crest`; only the shader named `Crest/Underwater/Post Process` has its list stripped, and any other list and the stripped counter stay unchanged |
| ShaderStripping.AllKeywordsMembership | crest/Assets/Crest/Crest/Scripts/Editor/BuildProcessor.cs:75-83 | a keyword is in the union exactly when some variant enables it |
| ShaderStripping.UnusedWithinAllKeywords | crest/Assets/Crest/Crest/Scripts/Editor/BuildProcessor.cs:75-124 | the unused set lies within the union of the variants' keywords |
| ShaderStripping.NoMaterialsStripsAllUserKeywords | crest/Assets/Crest/Crest/Scripts/Editor/BuildProcessor.cs:113-138 | with no ocean material, every non-exempt user-defined keyword that occurs is unused, and no variant enabling it survives |
| ShaderStripping.RetainIsSubsequence | crest/Assets/Crest/Crest/Scripts/Editor/BuildProcessor.cs:126-138 | the kept variants, and so the output of `ProcessUnderwaterShader`, are an order-preserving subsequence of the input |
| ShaderStripping.RetainLeavesNothingStrippable | crest/Assets/Crest/Crest/Scripts/Editor/BuildProcessor.cs:126-138 | no kept variant enables an unused keyword |
| ShaderStripping.RetainMultiplicity | crest/Assets/Crest/Crest/Scripts/Editor/BuildProcessor.cs:126-138 | a variant with no unused keyword keeps every copy; a variant with one keeps none |
| ShaderStripping.RetainKeepsClean | crest/Assets/Crest/Crest/Scripts/Editor/BuildProcessor.cs:126-138 | a list in which no variant enables an unused keyword is left exactly as it is |
| ShaderStripping.RetainKeywordsWithinInput | crest/Assets/Crest/Crest/Scripts/Editor/BuildProcessor.cs:126-138 | stripping never introduces a keyword that the input did not enable |
| ShaderStripping.StripPassIdempotent | crest/Assets/Crest/Crest/Scripts/Editor/BuildProcessor.cs:63-140 | stripping an already stripped list against the same materials removes nothing more |
| ShaderStripping.VariantOfUsedKeywordsKept | crest/Assets/Crest/Crest/Scripts/Editor/BuildProcessor.cs:89-138 | a variant whose keywords are all built-in, exempt or enabled on an ocean material is never stripped |
| ShaderStripping.VariantWithUnusedKeywordRemoved | crest/Assets/Crest/Crest/Scripts/Editor/BuildProcessor.cs:113-138 | a variant enabling a non-exempt user-defined keyword that no ocean material enables does not survive |
| ShaderStripping.ExampleStripsKeywordNoMaterialEnables | crest/Assets/Crest/Crest/Scripts/Editor/BuildProcessor.cs:85-138 | for variants {}, {A}, {B}, {A, B} of user-defined keywords and one ocean material enabling only A, the pass keeps exactly {} and {A}, in that order |
| LodInputRegistrar.InitStatics | crest/Assets/Crest/Crest/Scripts/LodData/RegisterLodDataInput.cs:73-78 | static initialisation leaves no type registered |
| LodInputRegistrar.GetRegistrar | crest/Assets/Crest/Crest/Scripts/LodData/RegisterLodDataInput.cs:31-40 | a present key returns its stored list with the registrar unchanged; an absent key gains an empty list, which is returned; other keys' entries are untouched |
| LodInputRegistrar.IndexOf | crest/Assets/Crest/Crest/Scripts/LodData/RegisterLodDataInput.cs:111 | the index found holds the element and no earlier position does |
| LodInputRegistrar.RemoveFirst | crest/Assets/Crest/Crest/Scripts/LodData/RegisterLodDataInput.cs:111 | an absent element leaves the list unchanged; otherwise exactly the first occurrence is cut out |
| LodInputRegistrar.RemoveFirstMultiset | crest/Assets/Crest/Crest/Scripts/LodData/RegisterLodDataInput.cs:111 | removal takes exactly one copy of the element out of the list's multiset, or none if it is absent |
| LodInputRegistrar.OnEnable | crest/Assets/Crest/Crest/Scripts/LodData/RegisterLodDataInput.cs:102-103 | the input is appended at the end of its type's list; the other types' lists are unchanged |
| LodInputRegistrar.OnDisable | crest/Assets/Crest/Crest/Scripts/LodData/RegisterLodDataInput.cs:108-112 | the first occurrence of the input is removed from its type's list, an absent input leaves the list unchanged, and an absent type ends up with an empty list; the other types' lists are unchanged |
| LodInputRegistrar.RemoveFirstOfAppended | crest/Assets/Crest/Crest/Scripts/LodData/RegisterLodDataInput.cs:102-112 | removing an element just appended to a list that lacked it gives back the list |
| LodInputRegistrar.EnableThenDisableRestores | crest/Assets/Crest/Crest/Scripts/LodData/RegisterLodDataInput.cs:102-112 | enabling and then disabling an unregistered input restores its type's list, and leaves the registrar that get-or-create would leave |
| LodInputRegistrar.InitStaticsConsistent | crest/Assets/Crest/Crest/Scripts/LodData/RegisterLodDataInput.cs:73-78 | the freshly reset registrar matches "no input enabled" |
| LodInputRegistrar.EnablePreservesConsistency | crest/Assets/Crest/Crest/Scripts/LodData/RegisterLodDataInput.cs:102-103 | enabling a disabled input keeps every type's list equal, as a multiset, to the enabled inputs of that type |
| LodInputRegistrar.DisablePreservesConsistency | crest/Assets/Crest/Crest/Scripts/LodData/RegisterLodDataInput.cs:108-112 | disabling an enabled input keeps every type's list equal, as a multiset, to the enabled inputs of that type |
| PredicatedField.WithDefaults | crest/Assets/Crest/Crest/Scripts/Helpers/PredicatedFieldAttribute.cs:29-34 | the default attribute is not inverted and disables at 0 |
| PredicatedField.GUIEnabled | crest/Assets/Crest/Crest/Scripts/Helpers/PredicatedFieldAttribute.cs:37-70 | for an int, bool, float, Enum or `PPtr` sibling, the field is enabled exactly when the sibling is not at its disabling value, reversed when inverted; an unsupported type yields true |
| PredicatedField.OnGUI | crest/Assets/Crest/Crest/Scripts/Helpers/PredicatedFieldAttribute.cs:72-80 | when the named sibling is not found the GUI-enabled state is unchanged; otherwise it becomes the predicate's value for that sibling |
| PredicatedField.InvertedNegates | crest/Assets/Crest/Crest/Scripts/Helpers/PredicatedFieldAttribute.cs:63-69 | flipping `inverted` negates the outcome for every supported type, and an unsupported type yields true either way |
| PredicatedField.DefaultBoolFollowsToggle | crest/Assets/Crest/Crest/Scripts/Helpers/PredicatedFieldAttribute.cs:22-28 | with default arguments a bool sibling enables the field exactly when it is true |
| PredicatedField.PointerIgnoresDisableValue | crest/Assets/Crest/Crest/Scripts/Helpers/PredicatedFieldAttribute.cs:59-62 | for an object-reference sibling `disableIfValueIs` is ignored, and the field is enabled exactly when the reference is non-null, reversed when inverted |
| PredicatedField.OnGUIFoundIgnoresIncomingState | crest/Assets/Crest/Crest/Scripts/Helpers/PredicatedFieldAttribute.cs:72-80 | once the named sibling is found, the resulting GUI state does not depend on the incoming one; when it is not found, the pass is the identity on that state |

## Left out

- `OnProcessScene` collects the ocean materials through `Resources.FindObjectsOfTypeAll` while a player is being built. The model takes the ocean-material list as part of the processor's state instead.
- `OnPostprocessBuild` and the `CREST_DEBUG` log lines only print the counters, so they are not modelled.
- ProcessUnderwaterShader: the counters are unbounded naturals. C#'s 32-bit `int` wrap-around is not modelled, because reaching it would take over two billion variants.
- OnProcessShader: `string.StartsWith` without a comparison argument is culture-sensitive in .NET. The model uses the ordinal prefix test, which gives the same result for the ASCII prefix `Crest`.
- GUIEnabled: `prop.type.StartsWith("PPtr")` without a comparison argument is culture-sensitive in .NET. The model uses the ordinal prefix test, which gives the same result for the ASCII prefix `PPtr`.
- CollectUnusedKeywords: `HashSet` iteration order is not modelled. The loops pick elements in any order, and their results do not depend on that order.
- `Draw` (command-buffer submission, material properties, the float weight test), `Start`'s material cloning, renderer disabling in `OnEnable`, gizmo drawing, `sp_Weight` and the `ILodDataInput` capabilities (`Wavelength`, `Enabled`) are engine-bound. They are not modelled.
- OnDisable: the `registered != null` test is always true, because `GetRegistrar` never returns null. It is therefore not modelled as a branch.
- GUIEnabled: the float branch compares a mathematical real with the integer. Single-precision rounding of the integer and NaN values are not modelled.
- `Debug.LogError` for an unsupported type, and the `SerializedProperty` / `GUI.enabled` plumbing beyond the "not found leaves the state unchanged" rule, are not modelled.
- src/unity/Assets/Scripts/RenderOceanDepth.cs only forwards notifications through engine singletons and component lookups. It is not part of this model.
