# Inventory bookkeeping of ProgettoSerena, modelled in Dafny

ProgettoSerena is a small inventory widget in the browser. `script.js` keeps three
module-level variables: `inventory`, an ordered list of `{id, name, quantity}` records;
`lastUpdated`, an ISO timestamp; and `sha`, the version token of the database file
`db/database.json` in a GitHub repository. Three user operations change the list in place:

- `addNewItem` trims the typed name and reads the quantity as `parseInt(...) || 0`.
  It refuses an empty name or a negative quantity. Otherwise it either merges the
  quantity into the first record whose name matches case-insensitively (when the user
  confirms the merge), or appends a new record with id `max(ids) + 1`.
- `updateQuantity` adds a delta to the first record with the id. It refuses a result
  below zero.
- `removeItem` filters out every record with the id, after the user confirms.

Each operation then calls `saveDatabase`. That call writes `{items, lastUpdated}` back
under the current `sha` and, on success, updates `lastUpdated`. `loadDatabase` reads the
file, stores its `sha`, decodes it and replaces the list and the timestamp.

The model:

- `text.dfy` (module `Text`): `trim` with ECMAScript's exact whitespace set, and
  `toLowerCase` for ASCII and Latin-1 letters.
- `parse_int.dfy` (module `IntParsing`): `parseInt` without a radix (leading
  whitespace, sign, `0x` prefix, longest digit run) and the form's `|| 0`.
- `items.dfy` (module `Items`): the record type and the pure lookups inside the
  operations: `find` by id and by name, `Math.max` of the ids, `filter`, and the
  one-record quantity write.
- `edits.dfy` (module `Edits`): what each user operation does to the list, as a value.
  Either the operation returns early without saving (`Abandoned`), or it produces a new
  list and then saves (`Applied`). The lemmas here carry the operations' properties.
- `store.dfy` (module `Store`): class `Inventory`, whose fields `items`, `sha` and
  `lastUpdated` are the three variables. Its methods perform the operations step by
  step, as the source does, and are proved to produce the edits of `Edits`. The
  `confirm` dialogs become boolean parameters. The remote outcome is an input: a
  `bool` for the write, and a `Fetch` value for the read that carries the token and the
  decoded document. The current time is a `now` parameter.
- `remote.dfy` (module `Remote`): the database file as the hosting service keeps it. A
  write is accepted only when it names the file's current token; an accepted write
  stores the document and issues a new token, and a refused one leaves the file as it
  was. This is an assumption about the service, not code of the repository. It is used
  to show two things. First, save followed by load gives back the list when the list
  can be encoded, and the previously stored list when it cannot. Second, because
  `saveDatabase` never refreshes `sha`, the next save before a reload names a stale
  token and is refused.

The model follows the code where it departs from the intended design of the page:

- Declining the merge does not abort `addNewItem`. Control falls through, and a record
  with the same case-insensitive name is appended (`Edits.AddDeclinedMergeDuplicates`).
  Name uniqueness therefore holds only as long as no merge is declined.
- The token is not replaced after a successful write. Only `loadDatabase` sets it.
- A load whose document cannot be decoded still stores the new token, because
  `sha = data.sha` runs before `JSON.parse`. The list and timestamp stay as they were.
- Refusals are early returns, some with a notification, not error values. An unknown
  id in `updateQuantity` or `removeItem`, and a declined removal, return without one.
  Mutations made before a failed save are not rolled back.
- `saveDatabase` encodes the document with `btoa`, which throws on any code point above
  U+00FF. A name such as "Dell’Acqua" (typographic apostrophe) therefore makes every save
  fail before a request is sent, until a removal drops the record or a reload replaces
  the list with the stored one, which loses the records typed since (`Store.Encodable`, `Remote.SaveThenLoad`).

## Model

| member | source | states |
|---|---|---|
| Text.TrimStart | script.js:157 | the dropped prefix is all whitespace; what remains is a suffix of the input that does not start with whitespace |
| Text.TrimEnd | script.js:157 | the dropped suffix is all whitespace; what remains is a prefix of the input that does not end with whitespace |
| Text.Trim | script.js:157 | the trimmed name is the stretch of the input left after dropping whitespace at both ends: everything before and after it is whitespace, and it neither starts nor ends with whitespace |
| Text.TrimEmptyIff | script.js:157-164 | the trimmed name is empty exactly when the typed name holds only whitespace |
| Text.TrimIdempotent | script.js:157 | trimming an already trimmed name changes nothing |
| Text.TrimStartSkipsPrefix | script.js:157-158 | leading whitespace has no effect once the start is trimmed |
| Text.ToLower | script.js:173-175 | lower-casing works code point by code point, so it keeps the length |
| Text.SameName | script.js:173-175 | two names match when their lower-cased forms are equal; its meaning is stated by Text.SameNameIffCaseOnly |
| Text.LowerCharIffCaseOnly | script.js:173-175 | two code points are equal after lower-casing exactly when they are equal or one is the upper-case partner of the other |
| Text.SameNameIffCaseOnly | script.js:173-175 | two names match exactly when they have the same length and differ, position by position, only in the case of a letter |
| IntParsing.ParseInt | script.js:158 | parseInt without a radix: skip leading whitespace, read a sign and a numeral; its properties are stated by the ParseInt lemmas below |
| IntParsing.QuantityOf | script.js:158 | the form's quantity: what parseInt reads, with NaN falling back to 0, as IntParsing.NonNumericQuantityIsZero states |
| IntParsing.DigitPrefixLength | script.js:158 | parseInt reads exactly the longest run of digits: all of it is digits, and the next character is not |
| IntParsing.ParseIntReadsDecimal | script.js:158 | an integer's decimal numeral followed by text that does not start with a digit parses back to that integer; only after the numeral 0 must that text not start with x or X |
| IntParsing.ReadsDigits | script.js:158 | the numeral of m followed by such text reads as m, and with a leading minus sign as -m |
| IntParsing.NatDigitsLeading | script.js:158 | the numeral of a positive number does not start with 0, so it never forms a 0x prefix |
| IntParsing.ParseSignedNumeral | script.js:158 | a numeral starting with a digit is read as its value, and with a leading minus sign as the negated value |
| IntParsing.ParseIntRoundTrip | script.js:158 | parseInt(String(n)) is n, so the form's quantity for String(n) is n |
| IntParsing.ParseIntSkipsWhitespace | script.js:158 | leading whitespace does not change what parseInt reads |
| IntParsing.NaNWithoutLeadingDigit | script.js:158 | text that does not start with whitespace, a sign or a digit reads as NaN even when digits follow |
| IntParsing.NaNAfterBareHexPrefix | script.js:158 | 0x not followed by a hexadecimal digit reads as NaN |
| IntParsing.NonNumericQuantityIsZero | script.js:158 | a quantity field with no digit parses to NaN, which the form's fallback turns into 0 |
| Items.IndexOfId | script.js:120 | finds the first record with the id; when none is found, no record has it |
| Items.IndexOfName | script.js:173-175 | finds the first record whose name matches case-insensitively; when none is found, no name matches |
| Items.MaxId | script.js:195 | the result is an id some record has, and no record has a larger one |
| Items.NextId | script.js:195 | the new id is larger than every existing id; it is 1 for an empty list and otherwise one past an existing id |
| Items.WithoutId | script.js:144 | the filter keeps exactly the records whose id differs, and returns the list unchanged when no record has the id |
| Items.WithoutIdKeepsOrder | script.js:144 | the kept records are a subsequence of the list, in their original relative order |
| Items.WithoutIdAppend | script.js:144 | filtering a concatenation filters each part and keeps the parts in place |
| Items.WithoutIdShrinks | script.js:139-144 | when some record has the id, the filter shortens the list |
| Items.WithoutIdPreserves | script.js:144 | filtering keeps ids distinct, names distinct and quantities non-negative |
| Items.WithQuantity | script.js:130 | the in-place quantity write changes that record's quantity only; its id and name and every other record stay |
| Items.WithQuantityPreserves | script.js:130 | the quantity write keeps ids and names distinct, and keeps quantities non-negative when the new one is |
| Items.AppendPreserves | script.js:198-202 | push keeps ids distinct for a new id, names distinct for an unmatched name, and quantities non-negative for a non-negative quantity |
| Edits.AddEdit | script.js:153-202 | addNewItem on the raw form fields: AddValidated on the trimmed name and the quantity QuantityOf reads; its properties are stated by Edits.AddRejectsInvalidInput and Edits.AddNonNumericQuantityAsZero |
| Edits.AddValidated | script.js:160-202 | the add stops exactly on an empty name or a negative quantity; otherwise the list grows by at most one record and no existing record changes its id or name |
| Edits.AddRejectsInvalidInput | script.js:157-170 | addNewItem stops, changing nothing, exactly when the name is all whitespace or the quantity is negative |
| Edits.AddNonNumericQuantityAsZero | script.js:158-170 | a quantity field parseInt reads as NaN is not an error: the operation behaves as if "0" had been typed |
| Edits.AddAppendsFreshItem | script.js:194-202 | for a non-empty name and a non-negative quantity with no match, or with the merge declined, one record is appended at the end with that name and quantity and an id unlike every other; earlier records stay unchanged and in order |
| Edits.AddMergesIntoFirstMatch | script.js:172-190 | with a confirmed merge, only the first matching record changes: its quantity grows by the given quantity; the length and all other records stay |
| Edits.AddDeclinedMergeDuplicates | script.js:177-202 | a declined merge still appends, so the length grows by one and two records share a case-insensitive name |
| Edits.AddPreservesInvariants | script.js:153-213 | adding keeps ids distinct and quantities non-negative; it keeps names distinct unless a match exists and the merge is declined |
| Edits.UpdateEdit | script.js:119-130 | an applied update keeps the length and every record's id and name |
| Edits.UpdateUnknownIdAbandons | script.js:120-121 | updateQuantity on an id no record has changes nothing |
| Edits.UpdateChangesOnlyFirstMatch | script.js:119-130 | updateQuantity is refused exactly when quantity + change < 0; otherwise only the first record with the id changes, to quantity + change, which is non-negative |
| Edits.UpdatePreservesInvariants | script.js:119-136 | updating keeps ids distinct, names distinct and quantities non-negative |
| Edits.RemoveEdit | script.js:138-144 | a removal is applied only when confirmed, and then keeps exactly the records whose id differs |
| Edits.RemoveDropsEveryMatch | script.js:138-144 | removal happens exactly when the id exists and the user confirms; it then drops every record with the id, keeps every other record in order, and shortens the list |
| Edits.RemoveTwiceAbandons | script.js:138-140 | removing the same id again finds nothing and changes nothing |
| Edits.RemovePreservesInvariants | script.js:138-151 | removing keeps ids distinct, names distinct and quantities non-negative |
| Edits.ZainoDecrementRefused | script.js:119-128 | on the list [{1,"Zaino",10}], updateQuantity(1, -15) is refused |
| Edits.ZainoMergeAdds | script.js:172-181 | adding "zaino" with quantity "5" and a confirmed merge turns record 1 into quantity 15 and creates no second record |
| Edits.ZainoRemoveEmpties | script.js:138-144 | removing id 1 from [{1,"Zaino",15}] empties the list |
| Edits.NegativeQuantityRefused | script.js:166-170 | a quantity of "-1" is refused for any name and any list |
| Store.Encodable | script.js:87-93 | the serialised document can be base64-encoded exactly when every name is Latin-1 |
| Store.TypographicApostropheNotEncodable | script.js:93 | a list holding "Dell’Acqua" with U+2019 cannot be encoded |
| Store.StoredTimestamp | script.js:65 | a missing or empty stored timestamp is replaced by the current time; any other is kept |
| Store.Inventory.constructor | script.js:14-16 | the initial state is an empty list, no token and the current time |
| Store.Inventory.LoadDatabase | script.js:44-77 | a failed fetch changes nothing; a fetch stores the token first; an undecodable document then leaves list and timestamp as they were; a decoded one sets the list to its items (or [] when absent) and the stored or current timestamp |
| Store.Inventory.Outgoing | script.js:87-102 | the request exists exactly when the list can be encoded, and then carries the list, the current time and the token last read |
| Store.Inventory.SaveDatabase | script.js:80-116 | succeeds exactly when the list can be encoded and the service accepts the write; only lastUpdated can change, and only on success; the token and the list are never touched |
| Store.Inventory.UpdateQuantity | script.js:119-136 | the list becomes UpdateEdit's result whatever the save's outcome; lastUpdated changes only after a save that could be encoded and was accepted; the token is untouched; the three invariants are preserved |
| Store.Inventory.RemoveItem | script.js:138-151 | the list becomes RemoveEdit's result whatever the save's outcome; lastUpdated changes only after a save that could be encoded and was accepted; the token is untouched; the three invariants are preserved |
| Store.Inventory.AddNewItem | script.js:153-213 | the list becomes AddEdit's result on the raw form fields whatever the save's outcome; lastUpdated changes only after a save that could be encoded and was accepted; the token is untouched; ids stay distinct and quantities non-negative |
| Store.Inventory.AddEntry | script.js:160-212 | once the name and quantity are read, the list becomes AddValidated's result and stays changed when the save fails; lastUpdated changes only after a save that could be encoded and was accepted; the token is untouched; ids stay distinct and quantities non-negative |
| Remote.FetchOf | script.js:50-61 | reading fails exactly when there is no file; otherwise it returns the file's token and its list |
| Remote.SaveThenLoad | script.js:44-116 | after a client in step with the file saves, loading gives back the same list, the new token and the save's timestamp when the list can be encoded; otherwise nothing is written and the load brings back the stored list |
| Remote.SecondSaveRefused | script.js:58-136 | after one accepted save, the save inside the next updateQuantity sends the updated list under the old token and is refused, leaving the file as the first save left it; no second write is sent when the update is refused; the token stays stale and the quantity change stays in memory |

## Left out

- The REST calls `getContent` and `createOrUpdateFileContents` and the Octokit client are network I/O through a library the repository does not contain. Their outcomes are inputs: the `Fetch` value and the `accepted` flag. `Remote.Commit` states what the service is assumed to do; it is not code of the repository.
- Base64 and JSON (`atob`, `btoa`, `JSON.parse`, `JSON.stringify`) are replaced by the decoded document given as input. The one failure of encoding is modelled: `btoa` throws on a code point above U+00FF (`Store.Encodable`). Otherwise `Remote.FetchOf` takes them to round-trip. That `atob` turns each byte of a UTF-8 file into one Latin-1 character is not modelled.
- The DOM, notifications, focus and input resets, `updateInventoryDisplay`, `updateLastUpdatedText` and the `confirm` dialogs are UI. The dialogs' answers are boolean parameters.
- `init`, `handleKeyPress` and the `setInterval` refreshes are event wiring. The `await` interleavings between a periodic reload and a pending save are concurrency. Every operation is modelled as running to completion on its own.
- `new Date()`, `toISOString`, `toLocaleString` and the commit message depend on the clock and locale. Timestamps are opaque strings passed in as `now`.
- `CONFIG` (owner, repo, path, branch, token) only parameterises the REST calls and is not modelled.
- Text.LowerChar: lower-cases ASCII and Latin-1 letters only. Other scripts' case mappings, including multi-character ones such as U+0130, are not modelled. Strings are sequences of code points, not of UTF-16 code units.
- JavaScript numbers are doubles; ids and quantities here are unbounded integers. Precision loss above 2^53, `parseInt` on very long digit runs, and the argument limit of `Math.max(...ids)` are not modelled.
- Records read from the file are assumed to be well-typed (numeric id and quantity, string name). A record with a string quantity, or a non-string name that makes `toLowerCase` throw, is not modelled.
- The `isNaN(quantity)` guard is unreachable after `|| 0`. Only the `quantity < 0` test is modelled.
- Records are values in a sequence rather than shared objects. `item.quantity = ...` is an update of one sequence position. No record object is reachable twice from the list, so no aliasing is lost.
- The local-storage variant, import/export and `replaceAll` are not part of this model: they belong to other versions of the page, not to `script.js`.
