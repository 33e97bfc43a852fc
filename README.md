# docx-filler token substitution, modelled in Dafny

docx-filler fills a Word template with the fields of a SharePoint list item.
The template's `word/document.xml` contains tokens `{key}`. `key` is a field's
internal name, or its display name when display names are used. A token is
often spread over several formatting runs (`w:r`).

The engine in `src/shared/DocxTokenFiller.ts` handles this in four steps:

1. It groups the runs by their parent element.
2. It reads each group as a `WRunCollection`: a list of `WRun`s, each holding its text and its
   `collectionIndex`, the offset of that text in the paragraph's text.
3. For each field, it finds the first `{key}` in the paragraph's text and cuts the
   runs at both ends of the token.
4. It writes the field's value into the first run inside the token and drops the
   other runs inside it.

This project models that engine and proves what it is meant to do:

- `runs.dfy` (module `Runs`): the XML nodes a run is read from and the `Run` record.
  It covers the `WRun` constructor and `WRunProperty` as functions over nodes, and
  `WRun.split` as a method (`SplitRun`) proved against `Pieces`, the run's fragments
  listed left to right.
- `collection.dfy` (module `RunCollections`): offsets as prefix sums (`IndexedFrom`)
  and the class `RunCollection`. Its field `nodes: seq<Run>` is rewritten by:
  - the constructor, through `ReadRuns`;
  - `Split`, proved equal to `SplitAll`;
  - `MergeReplace`, proved equal to `Merged`, then renumbered.

  It also holds lemmas on the paragraph text these leave.
- `fieldstring.dfy` (module `FieldValues`): `getFieldString` as `FieldString`. This
  includes the tag-stripping regular expression, as `StripTags`, and the decimal
  form of integers.
- `filler.dfy` (module `TokenFiller`): the leftmost-match search and the token
  substitution on text (`Substitute`, `FillText`). It also has the field loop on a
  collection (`FillCollection`), the grouping of runs by parent (`GroupByParent`)
  and `replace` as a whole (`Replace`).
- `findings.dfy` (module `Findings`): five places where the code does not do what it
  evidently means. Each is written as the code has it, with an input that shows
  the difference.

The run list stands for the parent's children in the XML tree. The model keeps
the two the same, as the source means to. The date rendering of a "DateTime"
field is the parameter `formatDate`.

## Model

| member | source | states |
|---|---|---|
| Runs.FromNodeSingle | src/shared/DocxTokenFiller.ts:173-185 | a run element with a single `w:t` child reads as that child's text and `xml:space` marker; its properties are the children of its `w:rPr` children, flattened in order |
| Runs.PropertyOfElement | src/shared/DocxTokenFiller.ts:223-232 | a run property holds the element's name and the values of its attributes, one per attribute, in order |
| Runs.PropertiesOfElements | src/shared/DocxTokenFiller.ts:182-184 | when every child of the `w:rPr` elements is an element, the run has one property per child, in order |
| Runs.SplitRun | src/shared/DocxTokenFiller.ts:187-219 | cutting at increasing points strictly inside the text yields the run's fragments left to right. The run keeps the prefix before the first cut, with its own offset and properties. There is one new run per cut, whose offset is the run's offset plus the cut, with the run's properties. The kept text followed by the new texts is the original text |
| Runs.PiecesText | src/shared/DocxTokenFiller.ts:193-216 | the fragments of a cut run, one more than the cuts, spell the run's text |
| Runs.PiecesAt | src/shared/DocxTokenFiller.ts:198-206 | fragment k+1 starts at cut k, holds the text up to the next cut, sits at the run's offset plus the cut and carries the run's properties |
| Runs.PiecesStyled | src/shared/DocxTokenFiller.ts:193-216 | cutting keeps the formatting of every character: the fragments show the cut text painted with the run's properties |
| Runs.PiecesProps | src/shared/DocxTokenFiller.ts:198-206 | every fragment carries the run's properties |
| Runs.PiecesPreserve | src/shared/DocxTokenFiller.ts:201-215 | a fragment carries the whitespace marker exactly when the run had it or the fragment's text starts or ends with whitespace; an empty fragment gets no new marker |
| RunCollections.ReadRuns | src/shared/DocxTokenFiller.ts:103-113 | the runs read from the elements in order, each at offset equal to the total length of the texts before it |
| RunCollections.IndexedAt | src/shared/DocxTokenFiller.ts:105-112 | in a list with accumulated offsets, run i sits at the length of the text of runs 0..i-1, and the last run ends where the paragraph's text ends |
| RunCollections.RunCollection.constructor | src/shared/DocxTokenFiller.ts:94-114 | the collection keeps the parent; its runs are the given elements, or else the parent's `w:r` children, with accumulated offsets |
| RunCollections.RunCollection.Text | src/shared/DocxTokenFiller.ts:157-159 | the paragraph's text is the runs' texts in order; its length is where the last run ends |
| RunCollections.RunCollection.Split | src/shared/DocxTokenFiller.ts:116-140 | each run is replaced in place by its fragments at the points strictly inside it; offsets stay consistent, the paragraph's text is unchanged and every point lies on a run boundary afterwards |
| RunCollections.SplitAllPreserves | src/shared/DocxTokenFiller.ts:120-130 | splitting never changes the paragraph's text and keeps offsets accumulated |
| RunCollections.SplitAllAligns | src/shared/DocxTokenFiller.ts:124-128 | after splitting, every point lies on a run boundary |
| RunCollections.SplitAllAtBoundaries | src/shared/DocxTokenFiller.ts:124-126 | points already on run boundaries or outside the text leave the runs unchanged |
| RunCollections.SplitAllStyled | src/shared/DocxTokenFiller.ts:116-140 | splitting keeps the formatting of every character, and each resulting run carries the properties of a run that was there before |
| RunCollections.SplitAllIdempotent | src/shared/DocxTokenFiller.ts:116-140 | splitting twice at the same points is splitting once |
| RunCollections.RunCollection.MergeReplace | src/shared/DocxTokenFiller.ts:142-155 | succeeds exactly when some run lies inside [start, end); then the runs become the merge, renumbered, else nothing changes |
| RunCollections.MergedShape | src/shared/DocxTokenFiller.ts:143-153 | the merge is the runs before the first selected run, that run holding the value, then the rest without selected runs |
| RunCollections.MergedDropsSelected | src/shared/DocxTokenFiller.ts:147-154 | after the first selected run, a run remains exactly when it is not selected |
| RunCollections.MergedText | src/shared/DocxTokenFiller.ts:142-155 | when start and end lie on run boundaries, the merged paragraph's text is the text before start, the value, then the text from end |
| RunCollections.MergedRuns | src/shared/DocxTokenFiller.ts:142-155 | for a range whose ends lie on run boundaries, the runs before it stay as they are, the first run inside it starts at `start` and holds the value with its own properties, the runs after it show the text from `end`, and every character outside the range keeps its formatting |
| RunCollections.AlignedHasInside | src/shared/DocxTokenFiller.ts:143-147 | a non-empty range whose ends lie on run boundaries contains a run, so the merge always finds its first run after a split |
| FieldValues.FieldString | src/shared/DocxTokenFiller.ts:66-85 | a missing or null value gives ""; a "Note" gives a tag-free subsequence of the value's string, equal to the value's string when it holds no tag; a "DateTime" gives the date rendering; any other type gives the value's string form, looked up by internal name |
| FieldValues.StripTagsNoTag | src/shared/DocxTokenFiller.ts:76 | no `<` followed by a character other than `>` survives the tag removal |
| FieldValues.StripTagsSubsequence | src/shared/DocxTokenFiller.ts:76 | tag removal keeps the other characters in order |
| FieldValues.StripTagsFixed | src/shared/DocxTokenFiller.ts:76 | tag removal leaves a string unchanged exactly when it holds no tag |
| FieldValues.StripTagsIdempotent | src/shared/DocxTokenFiller.ts:76 | removing tags twice is removing them once |
| FieldValues.StripTagsKeepsText | src/shared/DocxTokenFiller.ts:76 | text without a tag in front of the rest is kept as it is, ahead of what tag removal leaves of the rest |
| FieldValues.StripTagsDropsTag | src/shared/DocxTokenFiller.ts:76 | a tag at the front is removed entirely |
| FieldValues.StripTagsEnclosed | src/shared/DocxTokenFiller.ts:76 | text between an opening and a closing tag is kept, and both tags are removed |
| FieldValues.StripTagsNested | src/shared/DocxTokenFiller.ts:76 | text inside nested tags is kept in order, and all four tags are removed |
| FieldValues.StripTagsParagraph | src/shared/DocxTokenFiller.ts:76 | the rich text "<p>Hello <b>World</b></p>" becomes "Hello World" |
| FieldValues.IntStringRoundTrip | src/shared/DocxTokenFiller.ts:82 | an integer's decimal string reads back as that integer; values are limited to JavaScript's safe integers, whose `toString` is this decimal form |
| TokenFiller.FindFromSound | src/shared/DocxTokenFiller.ts:45-46 | the search from a position returns an occurrence with none before it back to that position, or reports correctly that there is none |
| TokenFiller.FindFirstSound | src/shared/DocxTokenFiller.ts:45-46 | the search returns the leftmost occurrence of the token, or reports correctly that there is none |
| TokenFiller.FindFirstAt | src/shared/DocxTokenFiller.ts:45-46 | an occurrence with none before it is the one the search returns |
| TokenFiller.TokenOnlyInItself | src/shared/DocxTokenFiller.ts:44-45 | for keys without braces, one field's token occurs in another's only when the keys are equal |
| TokenFiller.SubstituteSound | src/shared/DocxTokenFiller.ts:44-53 | without a match the text is unchanged; otherwise the leftmost token, of the display or internal name as chosen, is replaced by the field's value |
| TokenFiller.SubstituteAt | src/shared/DocxTokenFiller.ts:44-53 | where the token first occurs at `s`, the text before `s`, the value and the text after the token make up the result |
| TokenFiller.FillTextUntouched | src/shared/DocxTokenFiller.ts:42-55 | a paragraph holding no field's token is left as it is |
| TokenFiller.FillField | src/shared/DocxTokenFiller.ts:44-53 | one field on a collection: its runs become the step's runs (cut at both ends of the first token, the runs between merged into one holding the value), its text becomes the substitution of its text, offsets stay consistent, and without a match the runs are unchanged |
| TokenFiller.CutAt | src/shared/DocxTokenFiller.ts:51 | cutting the runs at both ends of a token keeps the text, the offsets and the formatting, leaves a run boundary at both points, and every run carries properties of an original run |
| TokenFiller.MergedAt | src/shared/DocxTokenFiller.ts:52 | merging the cut runs over the token leaves one run at the token's start holding the value; the runs before show the text before the token, the runs after show the text after it, and every other character keeps its formatting |
| TokenFiller.RefilledRuns | src/shared/DocxTokenFiller.ts:51-52 | cutting and merging together: one run at the token's start holds the value with the properties of an original run, the text around it is unchanged, and so is the formatting of every character outside the token |
| TokenFiller.RefilledText | src/shared/DocxTokenFiller.ts:51-52 | cutting and merging keep offsets consistent and replace exactly the token's span of the text by the value |
| TokenFiller.RefilledProps | src/shared/DocxTokenFiller.ts:51-52 | every run after cutting and merging carries the properties of an original run |
| TokenFiller.FillStepFound | src/shared/DocxTokenFiller.ts:44-52 | where the token first occurs, the step is the cut-and-merge at its span with the field's value, and the substitution puts the value there |
| TokenFiller.FillStepIsRefilled | src/shared/DocxTokenFiller.ts:44-52 | where the token first occurs, the token lies within the text and the step is the cut-and-merge at its span |
| TokenFiller.FillStepParts | src/shared/DocxTokenFiller.ts:44-52 | after the cut at both ends of the first token, a run lies inside it, so the merge succeeds, and the step is cut then merge |
| TokenFiller.FillStepNone | src/shared/DocxTokenFiller.ts:45-46 | without a match the step leaves the runs and the text unchanged |
| TokenFiller.FillStepText | src/shared/DocxTokenFiller.ts:44-53 | one step keeps offsets consistent and its text is the substitution of the text |
| TokenFiller.FillStepProps | src/shared/DocxTokenFiller.ts:44-53 | every run after one step carries the properties of a run before it |
| TokenFiller.FillRunsText | src/shared/DocxTokenFiller.ts:41-55 | the field loop on runs keeps offsets consistent and its text is every field substituted in turn |
| TokenFiller.FillRunsProps | src/shared/DocxTokenFiller.ts:41-55 | every run after the field loop carries the properties of an original run |
| TokenFiller.FillRunsUntouched | src/shared/DocxTokenFiller.ts:41-55 | runs holding no field's token are left as they are |
| TokenFiller.FillRunsExample | src/shared/DocxTokenFiller.ts:41-55 | "{Name}" split over "Hello {Na" and "me}!" filled with "Alice" gives the runs "Hello ", "Alice" formatted like the first run, and "!" formatted like the second |
| TokenFiller.FillCollection | src/shared/DocxTokenFiller.ts:41-55 | after the field loop the runs are the field loop on runs applied to the old runs, the paragraph's text is every field substituted in turn, and a paragraph with no token keeps its runs |
| TokenFiller.GroupByParent | src/shared/DocxTokenFiller.ts:23-35 | one group per parent, in order of the parent's first run; each group holds exactly its parent's runs, in document order |
| TokenFiller.ParentIdsFacts | src/shared/DocxTokenFiller.ts:23-35 | the groups' parents are distinct, and a parent has a group exactly when one of its runs occurs |
| TokenFiller.Replace | src/shared/DocxTokenFiller.ts:23-56 | one paragraph per parent, in first-appearance order, each holding exactly the field loop on runs applied to that parent's runs |
| TokenFiller.FilledText | src/shared/DocxTokenFiller.ts:23-56 | a filled paragraph has consistent offsets, shows its text with every field substituted in turn, takes every run's properties from the parent's runs, and is untouched when it holds no token |
| Findings.SplitSortAsWritten | src/shared/DocxTokenFiller.ts:189-209 | cuts [5, 11], whose string order differs from their numeric order, on "Dear {Name}!" give the new runs "" and "{Name}!", where the intended fragments are "Dear ", "{Name}", "!" |
| Findings.SplitListAsWrittenReorders | src/shared/DocxTokenFiller.ts:133-138 | inserting all fragments at the same position turns the run list of "abc" cut at 1 and 2 into "a", "c", "b", while the document keeps "abc"; the intended split keeps "a", "b", "c" in the list |
| Findings.SplitListAsWrittenShifts | src/shared/DocxTokenFiller.ts:120-138 | new runs keyed by positions in the list before any insertion: "Hello {Na" and "me}!" cut at 6 and 12 give the list "Hello ", "{Na", "!", "me}", whose text is "Hello {Na!me}"; the intended split keeps "Hello {Name}!" |
| Findings.MergeAsWrittenKeepsRuns | src/shared/DocxTokenFiller.ts:154 | with "{Name}" held as "{Na" and "me}", the document as written reads "Hello Aliceme}!" and the list holds only "me}"; the intended merge gives "Hello Alice!" |
| Findings.FillAsWrittenUsesStaleText | src/shared/DocxTokenFiller.ts:41-53 | matching "{A}{B}" against the text read once gives the runs "xxx", "bee" for A = "xxxxx", B = "bee" (merge taken as intended; with line 154 as written the document reads "xxxbee{B}"); the intended loop gives "xxxxxbee" |

## Left out

- Loading and saving the package (`jszip`, `file-saver`) and the download are binary I/O and a browser side effect.
- XML parsing and serialisation (`DOMParser`, `innerHTML`) are a foreign library. The document is the sequence of its run elements in document order, each with the identity of its parent. The tree under each parent is its list of runs.
- `new Date(val).toLocaleString()` depends on the locale and on host date parsing, so it is the parameter `formatDate`.
- Values other than null, strings, integers and booleans have no model. Fractional numbers and objects depend on JavaScript's number formatting and object `toString`.
- Runs.SplitRun: `WRun` is a class in the source and `split` shrinks `this.text` in place. The model returns the shrunk run as a value, and the collection puts it back in the list. The clone inserted into the tree (`node.after`) is the fragment in the list.
- Runs.FromNode: a run with several `w:t` children reads as their concatenated text, and the model cuts that text like any other. The source writes each fragment into the first `w:t` of a clone that keeps every `w:t` (lines 198-200), so the text of the later `w:t` children is shown again after every fragment. Runs.FromNodeSingle states where the model and the source agree: runs with a single `w:t`.
- Runs.PropertiesOf: a child of `w:rPr` that is not an element (whitespace text between the elements) makes the source throw at line 230, where it reads `node.attributes` of a text node. The model skips such children; Runs.PropertiesOfElements states the agreement when every child is an element.
- RunCollections.RunCollection.MergeReplace: a selected run without a `w:t` child makes the source throw (line 151); the model writes the value into it. Such a run reads as empty text.
- RunCollections.RunCollection.MergeReplace: when no run lies inside the range, the source throws; the model returns false and changes nothing. After a split at both ends of a token this cannot happen (RunCollections.AlignedHasInside).
- RunCollections.RunCollection.MergeReplace: the comparator `(x) => x.collectionIndex` at line 143 is not a valid comparator, so the order it leaves is up to the JavaScript engine. The model takes the selected runs in list order.
- RunCollections.RunCollection.MergeReplace: the source leaves offsets stale after a merge, and the model renumbers them. This is part of the stale-text finding.
- RunCollections.RunCollection.Split requires its points in increasing order, which is how `replace` calls it (start, then end of a token).
- TokenFiller.FindFirst: the source builds a regular expression from the key without escaping it (line 45). The model searches for `{key}` literally, which matches the source for keys without regular-expression metacharacters. For other keys the source differs: a key such as "1", "12", "2,5" or "3," makes `{key}` a quantifier with nothing to repeat, and `new RegExp` throws a `SyntaxError`; a key holding `.`, `(` or `*` matches other text or throws.
- FieldValues.Value: integers are limited to `SafeInteger`, JavaScript's safe integers (up to 2^53 - 1 in magnitude), whose `toString` is the decimal form `IntString`. Larger numbers are inexact in JavaScript and are written in exponential notation from 1e21, and are not modelled.
- RunCollections.Inside: the selection is that of line 143, so a run of empty text at offset `end` (or at `start`) lies inside the range. The model drops such a run after the first selected run, as line 154 means to, or writes the value into it when it comes first. The paragraph's text is the same either way, but a `w:tab`, `w:br` or drawing held by that run is removed, where the source as written never detaches it.
- TokenFiller.FillCollection: a value that itself contains a later field's token is substituted again, because each field is searched in the current text. The source searches the text read once, which is the stale-text finding below.
- The token style configured in the web part is never read by the engine, and the web part, its UI and the SharePoint service are not part of this model.

## Findings

| source | as written | input that shows it | evidently intended | confidence | as-written member | corrected member |
|---|---|---|---|---|---|---|
| src/shared/DocxTokenFiller.ts:189 | `indexes.sort().reverse()` sorts the cut points as strings. When their string order differs from their numeric order (e.g. 5 and 11), the smaller point is cut first, and the larger cut then falls past the shortened text | run "Dear {Name}!" cut at [5, 11]: the new runs are "" at 11 and "{Name}!" at 5 | cuts applied from the right in numeric order: "Dear ", "{Name}", "!" | not executed | Findings.SplitSortAsWritten | Runs.SplitRun |
| src/shared/DocxTokenFiller.ts:133-138 | every new run of a split run is inserted at the same position, which reverses them | one run "abc" cut at [1, 2]: the run list reads "a", "c", "b", so its text is "acb". The document still reads "abc", because `node.after` puts each clone right after the run and the cuts are applied from the right; list and tree then disagree, and a later merge picks its first run in list order | the fragments follow their run in ascending order in the list too: "a", "b", "c" | not executed | Findings.SplitListAsWrittenReorders | RunCollections.RunCollection.Split |
| src/shared/DocxTokenFiller.ts:128 | the new runs are keyed by their run's position in the list before any insertion (`i + 1`), and inserted in key order. The runs inserted for an earlier run push later runs back, so a later run's new runs land in front of it | two runs "Hello {Na" and "me}!" cut at [6, 12]: "{Na" goes in at 1, pushing "me}" to 2, where "!" then goes in. The list reads "Hello ", "{Na", "!", "me}", whose text is "Hello {Na!me}", while the document keeps "Hello {Name}!" | every run's fragments right after it: "Hello ", "{Na", "me}", "!" | not executed | Findings.SplitListAsWrittenShifts | RunCollections.RunCollection.Split |
| src/shared/DocxTokenFiller.ts:154 | `this.nodes = this.nodes.splice(index, 1)` keeps only the removed run in the list. The other runs inside the token are never detached from the tree | runs "Hello ", "{Na", "me}", "!" and range [6, 12) with value "Alice": the document reads "Hello Aliceme}!" and the list holds only "me}" | the other runs inside the range are removed from list and tree: "Hello Alice!" | not executed | Findings.MergeAsWrittenKeepsRuns | RunCollections.RunCollection.MergeReplace |
| src/shared/DocxTokenFiller.ts:41 | the paragraph's text is read once before the field loop. Later fields are matched against that stale text, and the runs keep stale offsets after a merge | "{A}{B}" in one run with A = "xxxxx" and B = "bee": B's cut at 3 falls inside "xxxxx", so the runs read "xxx", "bee" with the merge of line 154 taken as intended. With line 154 as written as well, the run "{B}" is not detached, and the document reads "xxxbee{B}" | each field searched in the current text with current offsets: "xxxxxbee" | not executed | Findings.FillAsWrittenUsesStaleText | TokenFiller.FillCollection |
