# larrygenerator: the drama substitution engine in Dafny

The site serves generated "drama" messages. A message is a sentence
template from `data.json`, such as `"[person] met [person] at the park."`.
Each `[key]` placeholder in the template is filled with a phrase from the
category `key` of `combinations`. A request path carries a selection: a
sentence index and, per category key, a list of phrase ids.

`createDramaMessage` fills the template from the selection.
- It visits the keys of `combinations` in order.
- It replaces the first occurrence of `[key]` once per id, for as long as
  the placeholder still occurs.
- It records the ids it actually used in `usedDramaIds`.
- The record is re-encoded as the page's permalink.

`generateRandomDrama` makes a fresh selection: a random sentence and four
random ids for every category.

This project models both operations and the pages built on them:
- `handleDrama` turns any throw into the not-found page.
- `/api/generate` returns a message and its permalink.

It proves the properties the permalink relies on.

- `strings.dfy` (module `Strings`): `includes`, `replace` with a string
  pattern, and occurrence counting. It also describes templates whose
  placeholders do not nest, and proves how one replacement changes the
  placeholder counts.
- `drama.dfy` (module `Drama`): the data model, the specification
  functions `Fill`, `Substitute` and `CreateDrama`, the loop methods
  `CreateDramaMessage`, `FillKey` and `GenerateRandomDrama`, and the
  function `HandleDrama`. `CreateDramaMessage` and `FillKey` are proved
  equal to their functions; `GenerateRandomDrama` is proved to meet the
  predicate `Overprovisioned`.
- `properties.dfy` (modules `DramaProperties` and `Api`):
  - the recorded ids are a prefix of the supplied ones;
  - trimming is stable;
  - the failures are exactly the throwing paths;
  - for plain pools, each key consumes min(k, m) ids;
  - `handleApi`'s permalink leads back to its own message.
- `worked.dfy` (module `Examples`): two concrete runs.
  - Ids `[0, 1, 0, 0]` on `"[a] met [a]"` give "Larry met Bob" and record `[0, 1]`.
  - An out-of-range id gives the text "undefined".

A selection is a record `Selection(sentence, ids)`. A path segment that
`atob` or `JSON.parse` rejects is `None`. The three ways
`createDramaMessage` throws are `Error` values:
- the segment is malformed;
- the sentence index is out of range;
- the placeholder of a key occurs but the key has no id list.

## Model

| member | source | states |
|---|---|---|
| Strings.IndexOf | src/index.js:83 | the result is the leftmost index at or after `from` where the pattern occurs, or None when it occurs nowhere there; `Strings.Contains`, the model of `message.includes(placeholder)` at lines 83 and 86, is a search from index 0 |
| Strings.ContainsExactly | src/index.js:86 | `includes` finds the pattern exactly when it occurs at some index |
| Strings.ReplaceFirst | src/index.js:90 | a text without the pattern is returned unchanged; otherwise the length changes by the difference between replacement and pattern |
| Strings.ReplaceFirstLeftmost | src/index.js:90 | when the pattern occurs at `i` and nowhere before, the text before `i` and after that occurrence is kept and only that occurrence becomes the replacement: `replace` acts on the first occurrence only |
| Strings.CountPositive | src/index.js:83 | a non-empty pattern occurs at least once exactly when `includes` finds it |
| Strings.ReplaceFirstCounts | src/index.js:90 | in a template with no nested placeholders, replacing the first `[k]` by a bracket-free phrase removes exactly one `[k]`, keeps every other `[w]` count, and keeps the template non-nested |
| Strings.ReplaceFirstAllCounts | src/index.js:90 | the same for `[k]` and every other placeholder at once |
| Drama.Fill | src/index.js:85-91 | the recorded ids are a prefix of the supplied list; when fewer ids are recorded than supplied, the placeholder no longer occurs in the message |
| Drama.FillKey | src/index.js:85-91 | the inner loop's message and pushed ids equal `Fill` over the whole id list |
| Drama.Substitute | src/index.js:81-92 | the placeholder of line 82 is `Strings.Placeholder(key)`; on success only keys of `combinations` get an entry, each entry lists ids the selection carries, and it is a prefix of them; a failure names a key of `combinations` that has no id list |
| Drama.SubstituteFailureSticks | src/index.js:85 | a throw on some key ends the loop: the failure on a prefix of the keys is the failure of the whole loop |
| Drama.CreateDrama | src/index.js:76-95 | an undecodable segment fails as malformed; a success has a sentence index in range; `usedDramaIds.sentence` is the decoded index; the recorded keys are keys of `combinations` |
| Drama.CreateDramaMessage | src/index.js:76-95 | the nested loops compute exactly `CreateDrama`, including which error they throw |
| Drama.HandleDrama | src/index.js:59-74 | the not-found page is served exactly when `createDramaMessage` throws; a drama page's permalink holds only keys of `combinations` |
| Drama.RandomIndex | src/index.js:40 | the pick is an index of the non-empty list it is given |
| Drama.GenerateRandomDrama | src/index.js:37-48 | the sentence index is in range, the keys are exactly those of `combinations`, and each key has four ids, each an index of its phrase list |
| DramaProperties.FillStaysDone | src/index.js:86 | once the placeholder no longer occurs, later ids change neither the message nor the recorded list |
| DramaProperties.FillSamePrefix | src/index.js:85-91 | the inner loop depends only on the ids it reaches |
| DramaProperties.FillStopsAtConsumed | src/index.js:85-91 | stopping after the recorded ids gives the same message and record as running the whole list |
| DramaProperties.FillTrim | src/index.js:85-91 | running the inner loop again on the ids it recorded reproduces its message and its record |
| DramaProperties.PhraseBracketFree | src/index.js:89 | with bracket-free phrases, every replacement text is bracket-free, "undefined" included |
| DramaProperties.FillCounts | src/index.js:85-91 | with k occurrences of `[key]` and m ids, exactly min(k, m) ids are recorded and that many `[key]` removed; other placeholders keep their counts; the message stays non-nested |
| DramaProperties.SubstituteIgnoresOtherKeys | src/index.js:81-85 | two selections that agree on the keys of `combinations` give the same result |
| DramaProperties.SubstituteSucceeds | src/index.js:81-92 | a selection with an id list for every key never fails, whatever its ids |
| DramaProperties.SubstituteReplay | src/index.js:81-92 | any selection carrying the recorded lists reproduces the same message and record |
| DramaProperties.AccountedSkip | src/index.js:83 | a key whose placeholder is absent when its turn comes gets no entry, and the counts stay as accounted |
| DramaProperties.AccountedAfterFill | src/index.js:84-91 | the accounting after a round that fills the last key follows from the counts `FillCounts` gives for that round |
| DramaProperties.AccountedFill | src/index.js:84-91 | a key whose placeholder occurs records min(k, m) ids and removes that many placeholders; the counts of the other keys do not change |
| DramaProperties.AccountedStep | src/index.js:81-92 | one round of the outer loop keeps the accounting |
| DramaProperties.SubstituteAccounts | src/index.js:81-92 | for plain categories, after all keys: a key has an entry iff its placeholder occurs in the template; the entry holds min(k, m) ids; the message keeps k minus that many placeholders |
| DramaProperties.SubstituteFailsExactly | src/index.js:83-85 | for plain categories, the loop fails iff some key's placeholder occurs in the template and the selection has no id list for it |
| DramaProperties.PermalinkReproduces | src/index.js:59-95 | feeding `usedDramaIds` back in gives the same message and the same `usedDramaIds` |
| DramaProperties.PermalinkPageIsStable | src/index.js:59-74 | the page behind a drama page's permalink is that same page |
| DramaProperties.ExtraKeysIgnored | src/index.js:81-85 | keys the pool does not declare do not change the result |
| DramaProperties.CompleteSelectionSucceeds | src/index.js:76-95 | a sentence index in range and an id list for every key always render, even with out-of-range ids |
| DramaProperties.GeneratedSelectionSucceeds | src/index.js:50-57 | a generated selection always renders, and each recorded list holds at most four in-range ids |
| DramaProperties.NotFoundExactly | src/index.js:59-95 | for a plain pool, the not-found page is served iff the segment is undecodable, the sentence index is out of range, or a key with a placeholder in the sentence has no id list |
| DramaProperties.PlaceholdersAccounted | src/index.js:81-92 | for a plain pool: a key is in `usedDramaIds` iff its placeholder is in the sentence; it records the first min(k, m) supplied ids; k - min(k, m) placeholders remain, so none when m >= k, and none of an unrecorded key |
| Api.GenerateApi | src/index.js:98-112 | the selection is a generated one (overprovisioned); the response and the permalink are the message and `usedDramaIds` that `createDramaMessage` makes of it; and the permalink renders as a drama page with exactly that message and that permalink |
| Examples.FirstPlaceholderAt | src/index.js:90 | the first placeholder is found where the first '[' is |
| Examples.NoPlaceholder | src/index.js:86 | a text without '[' holds no placeholder |
| Examples.TwoReplacements | src/index.js:85-91 | when two replacements use up the placeholder, four ids record only the first two |
| Examples.ParkFill | src/index.js:85-91 | ids [0, 1, 0, 0] on "[a] met [a]" give "Larry met Bob" and record [0, 1] |
| Examples.ParkExample | src/index.js:76-95 | the same through `createDramaMessage`: the record keeps the sentence and only the two used ids |
| Examples.UndefinedExample | src/index.js:87-90 | id 7 for a one-phrase category is recorded, and the placeholder becomes "undefined" |

## Left out

- HTTP plumbing is not modelled: the fetch listener, routing in `handleRequest`, `handleRoot`'s host rewrite, `Response` construction and `handle404`. `handle404` puts `status: "404"` inside `headers`, so the real status code is not 404; the model only says which page is served.
- HTML rendering is not modelled: `renderDrama`, `render404`, the embedded client script, and the social teaser picked by `randomEntry`.
- The codec is not modelled: `btoa`, `atob`, `JSON.stringify` and `JSON.parse`. A decoded segment is `Option<Selection>`, with `None` for a rejected one. The permalink is the `Selection` itself. The permalink lemmas therefore assume that decoding an encoded selection gives it back.
- Encoding is assumed never to fail. `btoa` throws on a character above U+00FF; at line 62 that throw is inside the try block, so a key or id list that `btoa` rejects gives the not-found page even though `createDramaMessage` succeeded. `Drama.HandleDrama`'s "not found exactly when createDramaMessage throws" holds only under this assumption.
- The decoded JSON is assumed to have the typed shape of `Selection`. Other shapes are not represented: `null`, a missing `sentence`, or a string `sentence` such as "0", which still indexes `sentences` in JavaScript.
- `randomIndex` (in `src/util.js`) is not part of this model. `Drama.RandomIndex` is an arbitrary in-range choice. `Drama.GenerateRandomDrama` requires non-empty lists; the source does not guard them, and what `randomIndex` does on an empty list is not visible.
- `data.json` is a parameter (`Pool`): the `sentences` and the ordered `combinations`. `for…in` visits keys in insertion order; JavaScript visits integer-like keys first, and that ordering is not modelled.
- Drama.CreateDrama: requires a pool with at least one category, distinct keys, and no key named `sentence`. With no categories, an out-of-range sentence would let an undefined message through instead of throwing. A key named `sentence` would overwrite the recorded sentence index.
- Drama.CreateDrama: ids are integers. Non-integer ids, string ids, and a string id list (which `for…of` walks character by character) are not modelled.
- Strings.ReplaceFirst: inserts the replacement literally. The `$` patterns that `String.prototype.replace` interprets in replacement text are not modelled.
- DramaProperties.FillCounts: proved only when keys and phrases contain no brackets and the template never opens a '[' inside another. Without the nesting condition a replacement can create a placeholder: in "x[[k]]" the phrase "k" yields a new "[k]".
- DramaProperties.SubstituteAccounts: proved under the same condition on categories and template.
- DramaProperties.SubstituteFailsExactly: proved under the same condition on categories and template.
- DramaProperties.NotFoundExactly: proved for plain pools only, for the same reason. `Drama.HandleDrama` still states, for every pool, that the not-found page is served exactly when `createDramaMessage` throws.
- DramaProperties.PlaceholdersAccounted: proved for plain pools only, for the same reason.
