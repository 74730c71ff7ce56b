# Tagger utilities, modelled in Dafny

This project models the helper functions of the scene Tagger (`ui/v2.5/src/components/Tagger/utils.ts`). The Tagger matches local scenes against candidates from a metadata provider. The helpers:

- **`toTitleCase`** title-cases performer descriptors word by word (module `Text`).
- **`parsePath`** splits a scene's file path into grouping folders, a base name and an extension (module `PathParser`).
- **`selectStudio`, `selectFingerprints`, `selectTags`, `selectPerformers` and `selectScenes`** normalise the provider's loosely typed records, where any field may be null, into the Tagger's strict records (module `Records`).
- **`sortScenesByDuration`** sorts the candidate scenes in place by how closely their durations match the local file's duration (module `DurationRanker`).
- **`filterPerformer`** keeps only the non-excluded, truthy fields of a performer for a submission form (module `FieldFilter`).
- Module `Wrappers` holds the `Option` and `Result` types.

JavaScript behaviour is written out explicitly:
- null is `None`.
- Truthiness of a string means present and non-empty.
- `??` replaces only null, so it keeps `""`.
- `split` keeps empty pieces.
- `slice(0, -0)` is the empty string.
- The extension regular expression `\.[a-z0-9]*$` is searched leftmost-first.
- `trim` removes the ECMAScript WhiteSpace and LineTerminator code points.

A crash in the original becomes an error value:
- **`ParsePath`** returns `Failure(EmptyPath)` when no path component survives, where the original calls `match` on `undefined`.
- **`SelectScenes`** returns `Failure(MissingStudio)` when a scene has no studio, where the original dereferences the null studio.

The in-place sort is an array method with `modifies`. It is proved equal to a functional stable insertion sort by a rank key. The comparator is proved to be exactly the sign of the difference of those keys. Permutation, ordering, stability and "no target, no change" are then proved about the functional sort.

The model follows the code's run-time behaviour:
- `remote_site_id!` is only a TypeScript assertion, so a missing provider id passes through as `None` instead of raising an error.
- `?? undefined` keeps empty strings, so "never an empty string" holds only for the title-cased descriptors. These are `ethnicity`, `eye_color`, `fake_tits`, `tattoos` and `piercings`.
- Normalising a normalised performer again reproduces it except for `country`, which goes through the country lookup a second time.
- `Array.prototype.sort` is stable, so scenes of equal rank keep their input order. No index tie-break is added.

## Model

| member | source | states |
|---|---|---|
| Text.ToLower | ui/v2.5/src/components/Tagger/utils.ts:6 | keeps the length; every upper-case letter becomes its lower-case counterpart (code point plus 32); no other character changes; no upper-case letter remains |
| Text.Split | ui/v2.5/src/components/Tagger/utils.ts:7 | splitting on one character gives at least one piece; no piece contains the separator; every character of a piece comes from the input; joining the pieces with the separator gives back the input |
| Text.JoinCapitalizedSplit | ui/v2.5/src/components/Tagger/utils.ts:7-9 | splitting on spaces, capitalising each piece's first character and joining with spaces is the same as upper-casing exactly the characters at the start or right after a space |
| Text.TitleCase | ui/v2.5/src/components/Tagger/utils.ts:4-10 | `toTitleCase` itself (lower-case, split on spaces, capitalise each piece, join); it carries no ensures of its own, and its behaviour is stated by `Text.TitleCaseCharwise`, `Text.TitleCaseKeepsSpaces`, `Text.TitleCaseIdempotent`, `Text.TitleCaseEmpty` and `Text.TitleCaseWord` |
| Text.TitleCaseCharwise | ui/v2.5/src/components/Tagger/utils.ts:4-10 | `toTitleCase` keeps the length; a character that starts a word (first, or after a space) is lower- then upper-cased, and every other character is lower-cased |
| Text.TitleCaseKeepsSpaces | ui/v2.5/src/components/Tagger/utils.ts:4-10 | spaces stay exactly where they were, and no other character becomes a space |
| Text.TitleCaseIdempotent | ui/v2.5/src/components/Tagger/utils.ts:4-10 | title-casing a title-cased phrase changes nothing |
| Text.TitleCaseEmpty | ui/v2.5/src/components/Tagger/utils.ts:4-10 | the result is empty if and only if the phrase is empty |
| Text.TitleCaseWord | ui/v2.5/src/components/Tagger/utils.ts:4-10 | a single word without spaces becomes its capitalised first letter followed by the lower-cased rest |
| Text.TitleCaseShoutedWord | ui/v2.5/src/components/Tagger/utils.ts:4-10 | "BLONDE" becomes "Blonde" |
| PathParser.NormalizeSeparators | ui/v2.5/src/components/Tagger/utils.ts:14-17 | a path that does not start with a drive letter or `\\` is unchanged; a Windows path loses its `x:` prefix, every backslash becomes `/` and nothing else changes; no backslash remains; lower case is preserved |
| PathParser.NonBlank | ui/v2.5/src/components/Tagger/utils.ts:19-20 | keeps exactly the pieces that are not all whitespace, none of them empty, each as many times as it occurs in the input |
| PathParser.NonBlankConcat | ui/v2.5/src/components/Tagger/utils.ts:19-20 | the filter keeps the order of the pieces: filtering a concatenation concatenates the filtered parts |
| PathParser.Components | ui/v2.5/src/components/Tagger/utils.ts:13-20 | every surviving component is non-empty, not blank and lower-case |
| PathParser.ExtensionFrom | ui/v2.5/src/components/Tagger/utils.ts:23 | the regular-expression search: empty exactly when no position at or after `p` starts a match; otherwise the name's suffix from a matching position |
| PathParser.ExtMatchShape | ui/v2.5/src/components/Tagger/utils.ts:23 | a match is a dot followed only by `[a-z0-9]` up to the end, so it contains no further dot |
| PathParser.Extension | ui/v2.5/src/components/Tagger/utils.ts:23 | the extension is empty exactly when nothing matches; otherwise it is a dot followed by `[a-z0-9]` with no other dot, and it is a suffix of the file name |
| PathParser.SliceTo | ui/v2.5/src/components/Tagger/utils.ts:24 | `slice(0, end)` is a prefix; an end of 0 (including `-0`) gives `""`; a negative end counts from the back |
| PathParser.CutSuffix | ui/v2.5/src/components/Tagger/utils.ts:23-24 | cutting a non-empty suffix off leaves a base name that, followed by the suffix, is the name; an empty suffix leaves an empty base name |
| PathParser.FromComponents | ui/v2.5/src/components/Tagger/utils.ts:21-30 | fails exactly when there is no component; the grouping folders are all components but the last two (none when there are at most two); base name and extension are built from the last component only; with an extension they rebuild it; without one the base name is `""` |
| PathParser.ParsePath | ui/v2.5/src/components/Tagger/utils.ts:12-31 | fails exactly when no component survives; every grouping folder is a non-blank lower-case component; base name and extension are lower-case |
| Records.TitleCaseIfTruthy | ui/v2.5/src/components/Tagger/utils.ts:122-130 | a descriptor is absent exactly when the provider's value is null or empty, otherwise it is the title-cased value, which is non-empty and already title-cased |
| Records.TitleCaseIfTruthyStable | ui/v2.5/src/components/Tagger/utils.ts:122-130 | applying the descriptor rule twice is applying it once |
| Records.SelectStudio | ui/v2.5/src/components/Tagger/utils.ts:93-98 | fails exactly when the studio is null; otherwise copies id, provider id, name and url |
| Records.SelectFingerprints | ui/v2.5/src/components/Tagger/utils.ts:100-102 | the scene's fingerprints unchanged, or none for a null scene or a missing list |
| Records.SelectTag | ui/v2.5/src/components/Tagger/utils.ts:105-108 | one tag of `selectTags`; it carries no ensures of its own, and its behaviour is stated element by element by `Records.SelectTags` |
| Records.SelectTags | ui/v2.5/src/components/Tagger/utils.ts:104-108 | one tag per input tag in the same order, with its id, and its name or `""` when the name is missing |
| Records.SelectPerformer | ui/v2.5/src/components/Tagger/utils.ts:113-136 | every field rule of one performer: `""` for a missing name, female for a missing gender, no images for a missing list; the five title-cased descriptors follow the descriptor rule; the country goes through the lookup; every other field is passed through unchanged |
| Records.SelectPerformers | ui/v2.5/src/components/Tagger/utils.ts:110-136 | one performer per input performer in the same order; each is the normalisation of the performer at the same position by `Records.SelectPerformer`'s field rules, so it has a gender and title-cased descriptors and keeps its provider id and name |
| Records.SelectPerformerStable | ui/v2.5/src/components/Tagger/utils.ts:113-136 | normalising a normalised performer again reproduces it, except for one more pass of the country lookup |
| Records.SelectScene | ui/v2.5/src/components/Tagger/utils.ts:144-157 | fails exactly when the studio is null; otherwise `""` for missing title and date and 0 for a missing duration; details and url pass through; one image if the image is truthy, none otherwise; the studio normalised by `Records.SelectStudio`, the tags by `Records.SelectTags` and the performers by `Records.SelectPerformers`; fingerprints unchanged |
| Records.NonNull | ui/v2.5/src/components/Tagger/utils.ts:142 | keeps exactly the non-null scenes |
| Records.NonNullConcat | ui/v2.5/src/components/Tagger/utils.ts:142 | the null filter preserves order: filtering a concatenation concatenates the filtered parts |
| Records.SelectAll | ui/v2.5/src/components/Tagger/utils.ts:143-158 | fails exactly when some scene has no studio; otherwise one normalised scene per scene, in order |
| Records.SelectScenes | ui/v2.5/src/components/Tagger/utils.ts:138-161 | fails exactly when a non-null scene has no studio; otherwise the non-null scenes normalised in order; a missing list gives an empty result |
| DurationRanker.Diffs | ui/v2.5/src/components/Tagger/utils.ts:170-177 | the scene's own duration difference followed by one difference per fingerprint, as absolute values |
| DurationRanker.CloseMatches | ui/v2.5/src/components/Tagger/utils.ts:182-183 | keeps exactly the differences of at most 5, each as many times as it occurs, and is empty exactly when all differences exceed 5 |
| DurationRanker.MinOf | ui/v2.5/src/components/Tagger/utils.ts:191-192 | the minimum: an element not larger than any element |
| DurationRanker.Compare | ui/v2.5/src/components/Tagger/utils.ts:167-197 | the comparator, with the two dead length branches kept; its own contract says only that it returns -1, 0 or 1 and 0 without a usable target; its order is stated by `DurationRanker.CompareIsRankOrder`, `DurationRanker.CompareVerdicts`, `DurationRanker.CompareAntisymmetric` and `DurationRanker.CompareTransitive` |
| DurationRanker.Rank | ui/v2.5/src/components/Tagger/utils.ts:182-196 | a scene with close matches gets a negative key, and one without gets a key above 5, so every close scene ranks before every distant one |
| DurationRanker.LengthBranchesUnreachable | ui/v2.5/src/components/Tagger/utils.ts:179-180 | a scene always has at least one difference, so the two length branches never fire |
| DurationRanker.CompareIsRankOrder | ui/v2.5/src/components/Tagger/utils.ts:167-197 | the comparator is exactly the sign of the difference of the two scenes' keys |
| DurationRanker.CompareVerdicts | ui/v2.5/src/components/Tagger/utils.ts:185-196 | more close matches goes first; equal non-zero counts tie; with no close matches on either side, the smaller smallest difference goes first |
| DurationRanker.CloseSceneFirst | ui/v2.5/src/components/Tagger/utils.ts:182-186 | a scene whose own duration is within 5 of the target goes before a scene with no duration within 5 |
| DurationRanker.CompareAntisymmetric | ui/v2.5/src/components/Tagger/utils.ts:167-197 | swapping the scenes negates the verdict |
| DurationRanker.CompareTransitive | ui/v2.5/src/components/Tagger/utils.ts:167-197 | "not after" is transitive, so the comparator is consistent |
| DurationRanker.CompareInactive | ui/v2.5/src/components/Tagger/utils.ts:168 | without a target, or with target 0, every pair ties |
| DurationRanker.InsertionSort | ui/v2.5/src/components/Tagger/utils.ts:167 | the stable sort by rank that `Array.prototype.sort` performs; it carries no ensures of its own, and its behaviour is stated by `DurationRanker.SortPermutes`, `DurationRanker.SortSorted`, `DurationRanker.SortStable` and `DurationRanker.SortConstantRank` |
| DurationRanker.InsertPermutes | ui/v2.5/src/components/Tagger/utils.ts:167 | inserting adds exactly the inserted element |
| DurationRanker.InsertSorted | ui/v2.5/src/components/Tagger/utils.ts:167 | inserting into a sorted sequence keeps it sorted |
| DurationRanker.InsertStable | ui/v2.5/src/components/Tagger/utils.ts:167 | inserting places the element after every element of equal rank |
| DurationRanker.SortPermutes | ui/v2.5/src/components/Tagger/utils.ts:167 | the sort returns a permutation of its input |
| DurationRanker.SortSorted | ui/v2.5/src/components/Tagger/utils.ts:167 | the sort's output is ordered by rank |
| DurationRanker.SortStable | ui/v2.5/src/components/Tagger/utils.ts:167 | the sort is stable: for every rank, the elements of that rank keep their order |
| DurationRanker.SortConstantRank | ui/v2.5/src/components/Tagger/utils.ts:167-168 | when all ranks are equal, nothing moves |
| DurationRanker.SortedMeaning | ui/v2.5/src/components/Tagger/utils.ts:182-196 | in a sorted list of scenes, earlier scenes have at least as many close matches, and among scenes without close matches the smaller smallest difference comes first |
| DurationRanker.SortScenesFacts | ui/v2.5/src/components/Tagger/utils.ts:163-197 | the sorted scenes are a permutation, ordered by rank and stable, and unchanged without a usable target |
| DurationRanker.ComparatorOrdersByRank | ui/v2.5/src/components/Tagger/utils.ts:167-197 | the comparator puts a scene first exactly when its key is smaller |
| DurationRanker.InsertLast | ui/v2.5/src/components/Tagger/utils.ts:167 | one pass of the in-place sort: the first `i + 1` slots become the insertion of `a[i]` into the first `i`; the rest is untouched |
| DurationRanker.SortInPlace | ui/v2.5/src/components/Tagger/utils.ts:167 | the array ends up as the stable insertion sort, by rank, of its old contents |
| DurationRanker.SortScenesByDuration | ui/v2.5/src/components/Tagger/utils.ts:163-197 | returns the same array, now holding the stable rank sort of its old contents: a permutation, ordered by rank, with equal ranks in input order; unchanged without a usable target |
| FieldFilter.GenderName | ui/v2.5/src/components/Tagger/utils.ts:222 | every gender value is a non-empty string, so a present gender is truthy |
| FieldFilter.Keep | ui/v2.5/src/components/Tagger/utils.ts:219-255 | the test `!excludedFields.includes(field) && value ? value : undefined` for one string field; it carries no ensures of its own, and `FieldFilter.FilterRule` states its effect |
| FieldFilter.Filter | ui/v2.5/src/components/Tagger/utils.ts:218-256 | the returned object, field by field; it carries no ensures of its own, and its behaviour is stated by `FieldFilter.FilterRule`, `FieldFilter.FilterLeavesOnlyTruthy` and `FieldFilter.FilterIdempotent` |
| FieldFilter.FilterRule | ui/v2.5/src/components/Tagger/utils.ts:218-256 | each field holds the input's value exactly when its name is not excluded and the value is truthy, and is absent otherwise |
| FieldFilter.FilterRules | ui/v2.5/src/components/Tagger/utils.ts:218-256 | the same rule for all thirteen fields at once |
| FieldFilter.FilterPerformer | ui/v2.5/src/components/Tagger/utils.ts:199-257 | `filterPerformer` applies that rule to the performer's thirteen fields |
| FieldFilter.FilterLeavesOnlyTruthy | ui/v2.5/src/components/Tagger/utils.ts:218-256 | a field that survives was not excluded and is a non-empty string |
| FieldFilter.FilterIdempotent | ui/v2.5/src/components/Tagger/utils.ts:218-256 | filtering twice with the same exclusions is filtering once |
| FieldFilter.FilterPerformerIdempotent | ui/v2.5/src/components/Tagger/utils.ts:199-257 | passing `filterPerformer`'s result through the same filter again changes nothing |
| FieldFilter.FilterExample | ui/v2.5/src/components/Tagger/utils.ts:219-226 | with gender excluded, the performer "Jane" keeps the name and loses the gender and the empty birth date |

## Left out

- The country lookup `getCountryByISO` (`src/utils/country`) is not part of this model. It is a parameter `lookup`, and nothing is assumed about it.
- The GraphQL types (`src/core/generated-graphql`) are not part of this model. The provider records are written out with the fields `utils.ts` reads.
- Upper and lower case are mapped for ASCII letters only. JavaScript's full Unicode case mapping (for example `ß` to `SS`, which changes the length) is not modelled.
- JavaScript numbers are modelled as unbounded integers. Fractional durations, `NaN` and floating-point rounding in `Math.abs` and the `<= 5` test are not modelled.
- `weight` is declared on the normalised performer and `image` on the normalised studio, but `selectPerformers` and `selectStudio` never set them, so the model leaves both fields out.
- `undefined` entries inside arrays, and non-array values where an array is typed, are not modelled. The only null entries modelled are the scenes that `selectScenes` filters out.
- DurationRanker.SortInPlace: `Array.prototype.sort` is only required to be stable, and this is modelled as an insertion sort. For a consistent comparator (proved in `CompareTransitive` and `CompareAntisymmetric`) every stable sort gives the same result. The model does not represent the engine's order of comparisons.
- Records.SelectScenes: the model states which scenes are normalised and that the first missing studio fails the call. It does not model how much work happens before the original throws.
- PathParser.ParsePath: the contract is stated for every path, but no literal path is worked through as an example.
