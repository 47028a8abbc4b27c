# jsondescriber in Dafny

A model of the Go package `jsondescriber`. The package describes a JSON
document by its shape and compares two JSON objects at the top level.

- **Classifier** (`Json`): `TypeOf` rejects input that is not valid JSON.
  Otherwise it names one of seven kinds (`object`, `array`, `string`, `true`,
  `false`, `null`, `number`) by looking up the first byte in a six-entry
  table. Any byte outside the table means `number`. `UnmarshalObject` and
  `UnmarshalArray` reduce to a kind check in front of the decoder.
- **Describer** (`Describer`, `Tally`): `Describe` classifies a document.
  For an object or an array it tallies the kinds of the immediate members in
  a `map[string]uint`, which is modelled as a `map<string, nat>` where an
  absent kind counts zero.
- **Renderer** (`Friendly`): `descElem` turns a tally into phrases such as
  "2 numbers" and "1 string", dropping zero counts. `JsonDescription.Friendly`
  builds an English fragment from them: "a number", "a literal null",
  "an empty array", "an object with 1 string", "... with p1 and p2", or
  "... with p1, p2, and p3" with an Oxford comma.
- **Object diff** (`RawObjects`): `Inventory` maps each key to the kind of
  its value. `Diff` sorts keys into added, deleted, typechanged (the kinds
  differ) and modified (same kind, different bytes). `DiffCount` counts the
  same four categories.

Go's `encoding/json` is not part of this model. The three calls the package
makes into it become a `Json.Library` value passed to every operation:
`json.Valid`, and unmarshalling one level deep into
`map[string]json.RawMessage` and `[]json.RawMessage`. The only property required
about the library is that valid input is non-empty, as the JSON grammar
requires. The subset type `Json.Decoder` carries that fact.

Go visits map keys in an unspecified order. The loops over map keys choose
the next key nondeterministically (`var k :| k in todo`). `descElem` and
`Friendly` take the visiting order as an explicit parameter that lists the
tally's keys exactly once each (`Enumerations.Enumerates`). descElem's
phrases are proved equal as multisets for any two orders. Friendly's
sentence depends on the order only through the order of those phrases. The
four `Diff` lists are
specified as duplicate-free listings of fixed key sets.

`json.Valid` accepts leading whitespace, but the table is read at `data[0]`,
so such a document is classified as a number
(`Json.LeadingWhitespaceReadsAsNumber`).

When a member fails to classify, `TypeOf` returns the empty string and an
error. The callers that tally or inventory members discard that error, so
`Json.KindOf` yields `""` and such a member is counted under `""`.

## Model

| member | source | states |
|---|---|---|
| Json.TypeOf | jsondescriber.go:165-181 | fails exactly when the input is not valid JSON, with the "not valid json" error; on success the result is one of the seven kinds |
| Json.TypeOfByFirstByte | jsondescriber.go:176-178 | on valid input, each table kind is reported exactly when the first byte is its table byte, and number exactly when the first byte is outside the table |
| Json.LeadingWhitespaceReadsAsNumber | jsondescriber.go:176-178 | the lookup reads the literal first byte, so valid input that starts with a space, tab, newline or carriage return is a number |
| Json.KindOf | jsondescriber.go:171-174 | the kind a caller sees after dropping the error: the empty string exactly for invalid input, otherwise TypeOf's kind |
| Json.UnmarshalObject | jsondescriber.go:279-299 | succeeds exactly on valid input whose first byte is `{`, returning the decoder's object; otherwise the validity error or a wrong-kind error naming the actual kind and "object" |
| Json.UnmarshalArray | jsondescriber.go:256-276 | succeeds exactly on valid input whose first byte is `[`, returning the decoder's array; otherwise the validity error or a wrong-kind error naming the actual kind and "array" |
| Tally.Bump | jsondescriber.go:147 | `m[t] += 1`: the count of `t` goes up by one, every other count is unchanged, and `t` becomes a key |
| Tally.TotalBump | jsondescriber.go:147 | one increment adds exactly one to the sum of all counts |
| Tally.TotalRemove | jsondescriber.go:147 | the sum of a tally does not depend on which key is taken out first |
| Describer.NewJsonDescription | jsondescriber.go:17-22 | the default description: its element is none of the seven kinds, and its tally is empty, so every kind counts zero |
| Describer.KeysOfKindStep | jsondescriber.go:145-148 | visiting one more object member adds one to the number of members of its kind and nothing to any other kind |
| Describer.IndicesOfKindStep | jsondescriber.go:155-158 | visiting one more array element adds one to the number of elements of its kind and nothing to any other kind |
| Describer.TallyObjectStep | jsondescriber.go:145-148 | one round of the object loop keeps the loop invariant: every count equals the number of visited members of that kind, and the counts sum to the number visited |
| Describer.TallyObject | jsondescriber.go:141-149 | every count is positive, each kind's count equals the number of members of that kind, and the counts sum to the number of members |
| Describer.TallyArray | jsondescriber.go:151-159 | every count is positive, each kind's count equals the number of elements of that kind, and the counts sum to the array's length |
| Describer.Describe | jsondescriber.go:127-162 | fails exactly on invalid input and then returns the default description ("undefined", empty tally); otherwise the element is TypeOf's kind, an object or array carries the exact tally of its members' kinds, and a scalar carries an empty tally |
| Friendly.DecimalRoundTrip | jsondescriber.go:47 | the digits `%d` prints for a count read back as that count |
| Friendly.NatToString | jsondescriber.go:47 | `%d` of a count: at least one character, all of them decimal digits |
| Friendly.PhraseParts | jsondescriber.go:46-51 | `Phrase`, the format of one phrase: it is the decimal digits of the count, which read back as the count, then a space, then the kind, with a plural "s" exactly when the count is above one |
| Friendly.PhraseInjective | jsondescriber.go:46-51 | two tally entries with counts of at least one give the same phrase only if they are the same entry |
| Friendly.DescElem | jsondescriber.go:41-56 | for a visiting order that lists the tally's keys, the phrases are those of the reference definition, one per key with a count of at least one, in visiting order |
| Friendly.PhrasesConcat | jsondescriber.go:44-53 | visiting two runs of keys one after the other yields the phrases of the first run followed by those of the second |
| Friendly.PhrasesMembers | jsondescriber.go:44-53 | every visited key with a count of at least one contributes its phrase, and every phrase comes from such a key |
| Friendly.PhrasesLength | jsondescriber.go:44-53 | for a duplicate-free order, the number of phrases is the number of visited keys with a non-zero count, so zero counts are dropped |
| Friendly.PhrasesDistinct | jsondescriber.go:44-53 | a duplicate-free visiting order gives duplicate-free phrases |
| Friendly.PhrasesPermutation | jsondescriber.go:44 | two visiting orders that are permutations of each other give the same phrases up to order |
| Friendly.PhrasesOrderIndependent | jsondescriber.go:44 | any two orders in which Go may visit the tally give the same multiset of phrases |
| Friendly.PhrasesOfPositiveTally | jsondescriber.go:41-56 | a tally built by Describe, whose counts are all positive, yields exactly one distinct phrase per kind |
| Friendly.PhraseExamples | jsondescriber.go:46-51 | a count of one gives "1 number" without a plural; a count of two gives "2 numbers" |
| Friendly.PhrasesOfTwo | jsondescriber.go:41-56 | the tally {number: 2, string: 1}, visited numbers first, gives ["2 numbers", "1 string"] |
| Friendly.JoinLast | jsondescriber.go:106 | `Join`, Go's `strings.Join`, puts the separator between neighbouring items: for two or more items, the join equals the join of all but the last item, then the separator, then the last item |
| Friendly.OxfordIsSerialList | jsondescriber.go:108-114 | the three-or-more branch (all but the last joined with ", ", then ", and " and the last) equals an independent front-to-back serial-list definition |
| Friendly.Oxfordize | jsondescriber.go:95-120 | no phrases give "an empty <kind>"; one gives "an <kind> with p1"; two give "an <kind> with p1 and p2"; three or more give "an <kind> with " and the serial list with an Oxford comma |
| Friendly.Friendly | jsondescriber.go:75-124 | string and number read "a <kind>"; true, false and null read "a literal <kind>"; object and array read as the container sentence over descElem's phrases; any other element, such as "undefined", reads "undefined" |
| Friendly.FriendlyEmpty | jsondescriber.go:115-120 | a container is called empty exactly when no kind in its tally has a non-zero count |
| Friendly.FriendlyOfDefault | jsondescriber.go:76 | the default description, which Describe returns on invalid input, reads "undefined" |
| Friendly.FriendlyEmptyObject | jsondescriber.go:115-120 | an object with an empty tally reads "an empty object" |
| RawObjects.Inventory | jsondescriber.go:59-72 | the inventory has exactly the object's keys, each mapped to the kind of its value |
| RawObjects.InventoryComplete | jsondescriber.go:66-69 | every inventory entry is a proper kind exactly when every member is valid JSON; otherwise the failed members show the empty string |
| RawObjects.ListOldKey | jsondescriber.go:196-207 | one round of Diff's first loop appends the key to the deleted, typechanged or modified list according to its category, and leaves the other lists unchanged |
| RawObjects.Diff | jsondescriber.go:184-222 | each of the four lists names every key of its category exactly once and no other key: added = new keys only, deleted = old keys only, typechanged = shared keys whose kinds differ, modified = shared keys with the same kind and different bytes |
| RawObjects.CounterBump | jsondescriber.go:233-248 | an increment under a category name keeps the counter keyed by category names only, each with a positive count |
| RawObjects.CountOldKey | jsondescriber.go:232-243 | one round of DiffCount's first loop adds one to the deleted, typechanged or modified count according to the key's category |
| RawObjects.CountOldKeys | jsondescriber.go:231-244 | after the first loop, the deleted, typechanged and modified counts equal the sizes of those categories and "added" is still absent |
| RawObjects.CountNewKey | jsondescriber.go:247-249 | one round of DiffCount's second loop adds one to the added count exactly for a key missing from the old object |
| RawObjects.CountNewKeys | jsondescriber.go:246-250 | after the second loop, the added count equals the number of added keys and the other three counts are unchanged |
| RawObjects.DiffCount | jsondescriber.go:225-253 | the counter has only category names as keys, every present count is positive, and each category's count (zero when absent) is the size of that category |
| RawObjects.DiffPartitionsKeys | jsondescriber.go:195-213 | a key of either object falls in at most one category, and in none exactly when both objects hold it with equal bytes |
| RawObjects.DiffListsDisjoint | jsondescriber.go:216-221 | the four lists Diff returns are pairwise disjoint |
| RawObjects.DiffOfSelfIsEmpty | jsondescriber.go:184-222 | diffing an object against itself gives four empty lists |
| RawObjects.DiffReversed | jsondescriber.go:184-222 | swapping the two objects swaps added and deleted and keeps modified and typechanged |
| RawObjects.DiffCountMatchesDiff | jsondescriber.go:225-253 | for every category, DiffCount's count is the length of Diff's list |
| RawObjects.KeysBalance | jsondescriber.go:196-213 | old size plus added keys equals new size plus deleted keys |
| RawObjects.DiffCountBalance | jsondescriber.go:225-253 | the counts balance: old size plus the added count equals new size plus the deleted count |
| RawObjects.TypeChangedFromInventories | jsondescriber.go:199-202 | the typechanged keys are exactly the shared keys whose entries in the two inventories differ |

## Left out

- `json.Valid` and `json.Unmarshal` belong to Go's standard library. They are parameters of the model, and the JSON grammar is not modelled. Beyond non-empty valid input, nothing is required of them.
- The text of the error messages. Errors are the two cases of `Json.Error`: invalid JSON, and a wrong kind naming the actual and the expected kind.
- The error of `json.Unmarshal` inside `UnmarshalObject`/`UnmarshalArray`. The decoder is modelled as total.
- Go pointers. `TypeOf` returns a `*string` and `Describe` a `*JsonDescription`, which the model replaces by values. No caller shares or mutates them after they are returned.
- Map iteration order. It is a nondeterministic choice or an explicit order parameter, as described above.
- The test `that[k] == nil` against a present key whose `RawMessage` is nil. Decoded objects never hold nil values, so the model uses plain key membership.
- Tally.Bump: the counts are unbounded `nat`, so the 64-bit wrap-around of Go's `uint` is not modelled. It would need 2^64 members.
- RawObjects.Diff: returns a datatype with four fields instead of Go's `map[string][]string` with four fixed keys.
- RawObjects.Diff, RawObjects.DiffCount: the body of Diff's first loop and both loop bodies of DiffCount are separate helper methods (`ListOldKey`, `CountOldKey`, `CountNewKey`), and the two loops of `DiffCount` are separate methods. The order of steps and the state updates are the same as in the Go code.
- The formatted output of `%d` is `Friendly.NatToString`, plain decimal digits with no sign or padding.
