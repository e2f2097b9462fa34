# Quote CRM: the save rule, in Dafny

This project models the quote list of a single-screen, browser-based quote CRM.
The list is the application's whole state. The model covers:

- the quote record and its approval sub-record;
- the three closed string-literal sets: status, approval state and currency;
- the blank form a new quote starts from, and what a form session hands to the save rule;
- the shape of generated identifiers;
- the save rule itself.

A submitted quote with a non-empty identifier replaces every list element that
has that identifier, with `updatedAt` set to the current time. A submitted quote
with an empty identifier goes to the front of the list. It gets a generated
identifier, and `createdAt` and `updatedAt` are both set to the current time.

The clock and the random source are parameters. `Save(quotes, q, now, freshId)`
takes the current time as `now`. It takes the identifier that the create branch
would generate as `freshId`. `Uid(randomText, clockText)` builds that identifier
from the base-36 texts of a random number and of the clock.

Files:

- `wrappers.dfy`: `Option`.
- `enums.dfy`: module `QuoteEnums`, the closed sets with their run-time names.
- `quote.dfy`: module `Quotes`, the records and the identifier views `IdSet` and `UniqueIds`.
- `uid.dfy`: module `QuoteIds`, JavaScript `slice` and the generated-identifier shape.
- `form.dfy`: module `QuoteForm`, the blank skeleton and form submission.
- `store.dfy`: module `QuoteStore`, the save rule and its properties.

The update branch (src/App.tsx:177) stores whatever `createdAt` the submitted
quote carries. The creation time survives an edit only because the form passes
the opened quote's hidden fields through, which `QuoteStore.EditReplacesInPlace`
proves.

## Model

| member | source | states |
|---|---|---|
| QuoteEnums.ParseStatus | src/App.tsx:8-12 | a text reads back as a status exactly when it is that status's literal, so the five literals are distinct and anything else is rejected |
| QuoteEnums.ParseApprovalState | src/App.tsx:9-13 | a text reads back as an approval state exactly when it is that state's literal ("Not Required", "Requested", "Approved", "Declined") |
| QuoteEnums.ParseCurrency | src/App.tsx:10-14 | a text reads back as a currency exactly when it is that currency's literal (GBP, USD, EUR) |
| QuoteEnums.StatusOptionsRoundTrip | src/App.tsx:144-149 | the status select offers every status, offers each one once, and each option's text casts back to the status it was rendered from |
| QuoteEnums.CurrencyOptionsRoundTrip | src/App.tsx:132-137 | the currency select offers every currency, offers each one once, and each option's text casts back to its currency |
| QuoteEnums.ApprovalStatesRoundTrip | src/App.tsx:9 | the approval-state list holds every state once, and each state's text reads back as that state |
| QuoteIds.SliceIndex | src/App.tsx:45 | JavaScript's normalised slice index always lies within the string |
| QuoteIds.Slice | src/App.tsx:45 | `slice` never yields more than the string has or more than the requested span; for in-range indices it is the ordinary substring; with a negative start and the end at the string's length it is the last `-start` characters, or the whole string when `-start` exceeds its length |
| QuoteIds.Uid | src/App.tsx:45 | a generated identifier is never empty, is at most 13 characters, and is the random text's characters from index 2 up to 8 (fewer if it is shorter), a dash, then the last min(6, clock length) characters of the clock text |
| QuoteForm.ShownAndHiddenDetermineQuote | src/App.tsx:24-40 | the eight fields the form shows and the fields it hides together determine a quote |
| QuoteForm.Blank | src/App.tsx:88-104 | the new-quote skeleton has an empty identifier (so saving it creates), empty timestamps, the given valid-until date, and the first member of each closed list |
| QuoteForm.Submit | src/App.tsx:86-112 | the submitted quote shows exactly the form's final inputs and keeps every hidden field of the quote it started from; a new-quote session submits an empty identifier, and an edit session keeps the opened quote's identifier and creation time |
| QuoteForm.SubmitUntouched | src/App.tsx:87-111 | submitting without changing any input hands back the starting quote unchanged |
| QuoteStore.ReplaceById | src/App.tsx:177 | the element-by-element map keeps the length; each position holds the replacement when its identifier matches and its original element otherwise |
| QuoteStore.Save | src/App.tsx:176-178 | update branch: same length, every matching element becomes the submitted quote with the new update time, every other element stays at its index; create branch: one longer, the created record at index 0, the old list unchanged behind it |
| QuoteStore.SaveKeepsIdsInPlace | src/App.tsx:177 | the update branch leaves the identifier at every index unchanged |
| QuoteStore.SaveUnknownIdIsNoOp | src/App.tsx:177 | saving a quote whose identifier is not in the list returns the list unchanged, so the edit is silently dropped |
| QuoteStore.SaveIdempotent | src/App.tsx:177 | saving the same quote twice at the same time gives the same list as saving it once |
| QuoteStore.SaveUpdatesInPlace | src/App.tsx:177 | with distinct identifiers, saving the quote whose identifier sits at index k changes index k and nothing else |
| QuoteStore.SaveIdSet | src/App.tsx:177-178 | the update branch keeps the set of identifiers; the create branch adds exactly the fresh identifier |
| QuoteStore.SavePreservesUniqueIds | src/App.tsx:177-178 | distinct identifiers stay distinct after a save, provided the fresh identifier is not already in the list |
| QuoteStore.SavePreservesWellFormed | src/App.tsx:176-178 | a list whose identifiers are distinct and non-empty stays so after a save whose generated identifier is new, so every later edit takes the update branch |
| QuoteStore.EditReplacesInPlace | src/App.tsx:176-177 | saving a form opened on the quote at index k replaces only index k; the form's values, the new update time and the quote's identifier, creation time and other hidden fields end up there |
| QuoteStore.CreateThenEdit | src/App.tsx:176-178 | a quote created from the blank form lands in front with the generated identifier and both timestamps set; editing it afterwards updates it in place, keeps its creation time and adds no second copy |

## Left out

- Rendering, the modal, the status pills and their colour maps (src/App.tsx:50-84, 192-223) are pure presentation.
- Loading the list from and writing it to browser local storage as JSON (src/App.tsx:167-174) is browser I/O through a foreign serialiser.
- PDF export through jsPDF and currency formatting through `Intl.NumberFormat` (src/App.tsx:48, 182-190) are foreign libraries.
- `uid`, `todayISO` and `addDays` read `Math.random` and `Date`. Their results are parameters. `QuoteIds.Uid` models only the string slicing of `uid`, not the base-36 conversion.
- The `Number(...)` coercions on input change and on submit (src/App.tsx:111, 129, 141) are JavaScript number parsing. Value and probability are opaque reals here.
- The per-keystroke form state updates are left out. A form session is modelled only by the final contents of its eight inputs (`QuoteForm.FormFields`).
- Closing the modal after a save (src/App.tsx:179) is UI state.
- `QuoteIds.Uid`: the model does not prove that generated identifiers are unique. The source relies on randomness and the clock for that. Lemmas that need a fresh identifier take "not already in the list" as a precondition.
- QuoteStore.Save: one `now` stands for several separate clock readings. The create branch (src/App.tsx:178) reads the clock once for `createdAt` and once more for `updatedAt`, and `uid()` reads it a third time. The update branch (src/App.tsx:177) reads it once per matching element. In the program these readings can differ by a millisecond tick. So three consequences hold here only because the model has one time: a created record's `createdAt == updatedAt` (`QuoteStore.CreateThenEdit`), every matching element getting the same update time, and `QuoteStore.SaveIdempotent`.
