# A model of the intake wizard of `scripts.js`

The wizard is a five-step browser form. This project models its parts in Dafny:

- **Stepper.** It keeps which step is active and styles each step's number badge. It saves a step's form when leaving the step. It builds each step's handler once.
- **DataManager.** The session store that every part reads and writes.
- **FormLightbox.** A modal form that remembers what is being edited: nothing, the legal representative, or a mail recipient by position.
- **Step3Handler.** Manages the legal representative (one record) and the mail recipients (an array). It adds, edits, deletes and lists them as panels.
- **Step4Handler and TableObj.** The table of uploaded documents, each row's size text, and the total size.
- **Step5Handler.** The review page. It builds one panel per step that has a saved record. Step 3 shows the representatives instead of its own record. Step 5's documents go to a sub-table.
- **PanelObj.** Which rows a panel shows, and how `formatKey` turns a property name into a heading.
- **ProgressiveDisclosure.** Questions whose answers reveal or hide follow-up fields. Hiding an element clears the fields inside it and recursively hides the targets of the toggles inside it. The "out" answers of step 1 swap the navigation buttons for an exit button.

The model is organised as follows:

- **Stateful parts are classes.** The store, the lightbox, the stepper, the step handlers, the table, the page and the disclosure controller are classes. Their fields are updated in place, and their methods carry `modifies` clauses.
- **Loops in the source are loops in the model.** This covers the form-serialisation loop, the badge loop, the total-size loop, the review loop, the row-labelling loop and the hiding loops. Each is proved against a function that specifies it.
- **Calculations are functions.** Key formatting, size texts, panel contents and the reach of the hiding recursion are pure functions with lemmas about them.
- **JavaScript objects are ordered property lists.** An object is a `seq<(string, V)>` in insertion order (`Objects`). For keys that are not array indices, which are the only keys the wizard uses (field names, labels, storage keys), `Object.keys` order, overwriting an existing key and `delete` behave as in JavaScript.
- **Stored values are `Json` values.** Truthiness follows section 7.1.2 of ECMA-262.

## Behaviour worth knowing

- **No active step.** With no step marked active at construction, the active index is -1.
- **Nameless controls.** `storeData` stores the value of a nameless control that contributes one under the key `""`.
- **The total file size.** It is computed by re-parsing the size texts already stored in the table. A row shown as "1.50 MB" counts as 1 kilobyte (see `Documents.ReadBackSize`).
- **Deleting a mail recipient.** It uses `splice`, so a negative position removes from the end and a position past the end removes nothing. Both still save the array and notify.
- **Step-5 documents in `storeData`.** The branch that embeds `uploadedDocuments` into step 5's record never runs. The handler cached for step 5 is a `Step5Handler`, which has no documents table. `Wizard.Stepper.StoreData` asserts this.
- **Row indices.** The edit and delete buttons of the documents table read their index with `parseInt` and no radix, so an index text "0x1" names row 1 (`Text.HexIndexExample`). The user level is read the same way.

## Model

| member | source | states |
|---|---|---|
| Base.SpliceStart | scripts.js:372 | the position `splice(start, 1)` removes: `start` when in range, counted from the end when negative, none (the length) when past the end, 0 below minus the length |
| Base.SpliceOne | scripts.js:812 | `splice(start, 1)` removes exactly the element at that position when there is one, keeps every element before it and shifts every later one down by one; otherwise leaves the array unchanged |
| Base.SpliceOneInverse | scripts.js:372 | putting the removed recipient back at its position restores the array |
| Json.MemberOr | scripts.js:547-556 | `j.k \|\| "N/A"` is the property when it is present and truthy, and the fallback when it is missing or falsy |
| Json.StrOrNull | scripts.js:251-255 | a form entry is truthy exactly when present and non-empty, and then is that string; otherwise it is null |
| Json.Truthy | scripts.js:267 | definition: ToBoolean of section 7.1.2 of ECMA-262 (null, false, 0 and "" are falsy; arrays and objects are truthy) |
| Json.Member | scripts.js:547-556 | `j.k` is present exactly when `j` is an object with a property `k`, and then is that property's value |
| Json.ArrayItems | scripts.js:211 | `x \|\| []` on a stored array: a falsy value gives no items and an array gives its items |
| Json.JsText | scripts.js:196 | definition: ToString of a stored value as `parseInt` sees it (section 7.1.17 of ECMA-262); arrays join their items with "," |
| Json.ParseStoredText | scripts.js:196 | `parseInt` reads a stored number, or an array holding one number, as that number, and a stored null, boolean or object as NaN |
| Text.TrimStart | scripts.js:434 | `trimStart` removes exactly the leading ECMAScript white space: what remains is a suffix that starts with a non-space |
| Text.TrimEnd | scripts.js:434 | `trimEnd` removes exactly the trailing white space: what remains is a prefix that ends with a non-space |
| Text.Trim | scripts.js:557 | the trimmed text is a contiguous slice of the input with only white space before and after it; it neither starts nor ends with white space, and is empty exactly when the input is all white space |
| Text.TrimSlice | scripts.js:434 | the trimmed text is the contiguous slice of the input that starts where the leading white space ends, with only white space after it |
| Text.DigitChar | scripts.js:466 | the character written for a digit is a decimal digit of that value |
| Text.NatToString | scripts.js:466 | `String(n)` of a natural number is a non-empty run of decimal digits |
| Text.IntToString | scripts.js:554 | `String(n)` starts with a digit or a minus sign |
| Text.LeadingDigits | scripts.js:465 | the digits `parseInt` reads are the longest digit prefix of the text |
| Text.ParseIntOfIntToString | scripts.js:482 | `parseInt(s, 10)` reads back every integer `String` writes, whatever non-digit text follows it |
| Text.ParseIntOfNegative | scripts.js:482 | the same for negative integers, through the leading minus sign |
| Text.ParseIntOfNonNegative | scripts.js:465 | the same for non-negative integers |
| Text.ParseInt | scripts.js:465 | definition: `parseInt(s, 10)` skips leading white space, reads an optional sign and the longest run of decimal digits, and is NaN without digits; its partner is `Text.ParseIntOfIntToString` |
| Text.ParseIntOrZero | scripts.js:465 | definition: `parseInt(s, 10) \|\| 0`, with NaN read as 0 |
| Text.ParseIntAuto | scripts.js:798 | `parseInt(s)` with no radix is `parseInt(s, 10)` unless "0x" or "0X" follows the sign, and then is NaN exactly when no hexadecimal digit follows |
| Text.ParseIntAutoOfIntToString | scripts.js:798 | `parseInt` with no radix reads back every integer `String` writes |
| Text.HexIndexExample | scripts.js:798 | "0x1" is 1 to `parseInt(index)` but 0 to `parseInt(index, 10)` |
| Text.ParseIntAutoOfWord | scripts.js:196 | text that starts with an ASCII letter (either case) or "[" is NaN to `parseInt` |
| Text.IntToStringPrefixInjective | scripts.js:554 | two texts that start with different integers, each followed by a non-digit, differ |
| Objects.Keys | scripts.js:573 | `Object.keys` lists the keys in property order |
| Objects.KeyIndex | scripts.js:573 | a key's position is that of its first occurrence, or -1 exactly when the key is absent |
| Objects.Put | scripts.js:572-577 | `e[k] = v` makes `k` read `v`, keeps the key order when `k` was present and appends otherwise, and keeps keys unique |
| Objects.GetPut | scripts.js:572-577 | after `e[k] = v`, every other key reads as before |
| Objects.PutFrom | scripts.js:572-577 | every property after `e[k] = v` is the new one or was already there |
| Objects.GetAt | scripts.js:101-112 | in an object with unique keys each key reads the value stored with it |
| Objects.Delete | scripts.js:569 | `delete e[k]` makes `k` absent, keeps every other key's value, and removes one property when `k` was present and none otherwise |
| Objects.GetRemoved | scripts.js:569 | removing one property leaves every other key's value |
| Objects.PutNext | scripts.js:547-551 | assigning the next property of an object with unique keys extends the prefix built so far |
| Objects.PutAppend | scripts.js:554-558 | the same when the assignments follow an object already built |
| Storage.DataManager.constructor | scripts.js:832-852 | the store starts empty and has sent no notice |
| Storage.DataManager.GetData | scripts.js:844-847 | `getData` returns the value last saved under the key, or null when there is none |
| Storage.DataManager.SaveData | scripts.js:833-836 | `saveData` stores the value under the key, leaves every other key, and sends one `dataUpdated` notice for that key |
| Storage.DataManager.ClearData | scripts.js:849-851 | `clearData` removes the key, leaves every other key and sends no notice |
| Storage.DataManager.AppendToArray | scripts.js:837-842 | `appendToArray` stores the old array (empty when missing) with the value added at the end, and sends one notice |
| Lightbox.FormLightbox.constructor | scripts.js:855-873 | a new lightbox is closed and has no edit index |
| Lightbox.FormLightbox.OpenLightbox | scripts.js:888-890 | opening shows the lightbox and keeps the edit index |
| Lightbox.FormLightbox.CloseLightbox | scripts.js:892-895 | closing hides the lightbox and forgets the edit index |
| Lightbox.FormLightbox.SetEditIndex | scripts.js:944-946 | the edit index becomes the given target; visibility is unchanged |
| Lightbox.FormLightbox.GetEditIndex | scripts.js:948-950 | returns the current edit index |
| Lightbox.FormLightbox.ClearEditIndex | scripts.js:951-953 | the edit index becomes null; visibility is unchanged |
| Wizard.ControllerFor | scripts.js:145-165 | steps 1 to 5, and only those, get a handler, and step 5's is a `Step5Handler` |
| Wizard.StyleStepNumber | scripts.js:55-66 | a badge is dark exactly when its step is active or completed; it shows a check mark exactly when completed, the info mark exactly for an uncompleted first step, and the step's index otherwise |
| Wizard.NumberStyles | scripts.js:42-53 | exactly the steps with a number element are styled, each as active when it is the active step and completed when it comes before it |
| Wizard.StatusOf | scripts.js:49-50 | a step is completed exactly when it comes before the active one, and active exactly when it is the active one |
| Wizard.BadgeFollowsStatus | scripts.js:42-66 | a badge is highlighted exactly when its step is not pending, and shows the check mark exactly when it is completed |
| Wizard.FirstMarked | scripts.js:4 | the active step found at construction is the first step marked `active`, or -1 when none is |
| Wizard.StepKeyInjective | scripts.js:121 | different steps save under different `stepData_<n>` keys |
| Wizard.StepKey | scripts.js:121 | a step's key is "stepData_" followed by a text `parseInt` reads back as the step number |
| Wizard.SerializeForm | scripts.js:101-112 | the record built from a form never holds a key twice |
| Wizard.Contributes | scripts.js:102-109 | definition: a radio button or checkbox contributes only when checked, every other control always; its partner is `Wizard.SerializeForm` |
| Wizard.CollectFormData | scripts.js:101-112 | the collection loop builds exactly the specified record |
| Wizard.SerializedValue | scripts.js:101-112 | under each name the record holds the value of the last contributing control with that name, so a later control overwrites an earlier one |
| Wizard.SerializedAbsent | scripts.js:101-112 | a name that no contributing control carries (an unchecked box, for instance) is absent from the record |
| Wizard.Stepper.constructor | scripts.js:2-11 | the active step is the first one marked, the badges are styled for it, and exactly its handler is built |
| Wizard.Stepper.UpdateStepNumbers | scripts.js:42-53 | after the loop every numbered badge has the style its status calls for |
| Wizard.Stepper.CustomStepCode | scripts.js:145-165 | a handler is built only for a step from 1 to 5 that has none yet; every cached handler matches its step and none is built twice |
| Wizard.Stepper.SetActive | scripts.js:21-40 | an undefined target changes nothing; otherwise the target becomes the only marked step, every badge follows the new status, and its handler is built once |
| Wizard.Stepper.StoreData | scripts.js:97-122 | the step's form record (empty without a form) is saved under `stepData_<n>` with one notice, and nothing else in the store changes |
| Wizard.Stepper.NavigateStep | scripts.js:87-95 | a move outside the steps changes nothing (no mark, controller, build or store change); otherwise the current step's record is saved first and the neighbouring step becomes active: it alone gains the `active` mark, the old active step loses it, every other mark is kept, and every earlier step is completed |
| Representatives.ComposeAddress | scripts.js:242-248 | an address is composed exactly for "Canada" (street, city line and "Canada", joined by `<br>`) and "Outside of Canada" (the free-form address alone); any other country leaves none |
| Representatives.NewRepresentative | scripts.js:250-256 | the submitted record is an object |
| Representatives.NewRepresentativeFields | scripts.js:250-256 | the record has the five properties name, address, phone, altPhone and role, in that order and once each, each the form's entry (the composed address) or null when missing or empty |
| Representatives.AddressPresence | scripts.js:242-256 | the record always has an address property: truthy for a Canadian address, null when no known country was chosen |
| Representatives.MailRecipientLabels | scripts.js:335-338 | a mail recipient's panel has a label for every property |
| Representatives.LegalRepLabels | scripts.js:327-333 | a level-3 user sees only the first two labels; anyone else sees all of them |
| Representatives.LabelsMatchFields | scripts.js:327-338 | every label names the property at its position |
| Representatives.UserLevel | scripts.js:196 | `parseInt(getData("userLevel")) \|\| 2`: a stored non-zero number is the level, a stored string is what `parseInt` with no radix reads from it unless that is NaN or 0, an array holding one non-zero number is that number, and anything else (null, a boolean, an object, 0) gives 2 |
| Representatives.RepresentativePanels | scripts.js:278-312 | one panel for the legal representative when there is one, plus one per recipient |
| Representatives.RepresentativePanelsLayout | scripts.js:278-312 | the legal representative's panel comes first, then each recipient's panel in order |
| Representatives.LegalRepPanel | scripts.js:282-296 | definition: the legal representative's panel, editable and deletable except for a level-3 user; its partner is `Representatives.RepresentativePanelsLayout` |
| Representatives.RecipientPanel | scripts.js:300-312 | definition: recipient `k`'s panel, titled "Mail recipient <k+1>" and tagged with position `k`; its partner is `Representatives.RepresentativePanelsLayout` |
| Representatives.RecipientPanels | scripts.js:300-311 | recipient `k`'s panel is at position `k` |
| Representatives.PanelTargetsValid | scripts.js:278-312 | every edit or delete button names an existing record: the sentinel only while there is a legal representative, and a position only within the recipients |
| Representatives.Step3Handler.constructor | scripts.js:195-237 | the handler reads the user level, the legal representative (null when falsy) and the recipients from the store, and its lightbox starts closed |
| Representatives.Step3Handler.SaveData | scripts.js:223-229 | a save of either representative key also refreshes the handler's copies; any other save leaves them |
| Representatives.Step3Handler.HandleFormSubmit | scripts.js:240-276 | with no edit index the record becomes the legal representative when there is none and is appended to the recipients otherwise; the sentinel replaces the legal representative and a position replaces that recipient in place; each branch states the stored items and notices, the edit index is cleared, the legal representative is otherwise reloaded from the store and is never lost |
| Representatives.Step3Handler.SaveLegalRep | scripts.js:261 | the legal representative is stored and both copies follow |
| Representatives.Step3Handler.SaveRecipients | scripts.js:265-272 | the recipients array is stored and both copies follow: the recipients are the new array and the legal representative is reloaded from the store |
| Representatives.Step3Handler.SubmitLightbox | scripts.js:926-942 | submitting then closing has, for the edit index held before it, exactly the outcome of `handleFormSubmit` on both copies, the stored items and the notices, and leaves the lightbox closed with no edit index |
| Representatives.Step3Handler.EditPanelData | scripts.js:359-365 | the lightbox opens on the chosen record with that edit index |
| Representatives.Step3Handler.DeletePanelData | scripts.js:367-378 | the sentinel clears the legal representative without a notice; a position removes that recipient with `splice`, so later ones move down by one, saves the array and reloads the legal representative from the store |
| Documents.Hundredths | scripts.js:466 | `toFixed(2)` of `n / 1024` rounds to the nearest hundredth |
| Documents.MegabyteText | scripts.js:466 | the megabyte text has two decimals after a point |
| Documents.MegabyteTextDigits | scripts.js:466 | the megabyte text is the digits of the hundredths with a point before the last two |
| Documents.SizeText | scripts.js:466 | below 1024 the text ends in " KB" and `parseInt` reads the size from it; otherwise it ends in " MB", after the hundredths of a megabyte with a point put before their last two digits |
| Documents.ReadBackSize | scripts.js:482 | `parseInt` of a size text gives back the kilobytes below 1024, but only the whole megabytes above |
| Documents.SubmittedRow | scripts.js:461-478 | the stored row is the form data with only the size entry rewritten as its size text |
| Documents.SubmittedRowSize | scripts.js:465-482 | a small submitted size is counted in full by the total |
| Documents.SubmittedSize | scripts.js:465 | definition: `parseInt(formData["s5-size"], 10) \|\| 0`, with a missing entry read as "undefined"; its partner is `Documents.SubmittedRowSize` |
| Documents.SizeOf | scripts.js:482 | definition: a row's size as the total counts it; its partner is `Documents.ReadBackSize` |
| Documents.TotalSize | scripts.js:481-484 | definition: the sum of the rows' sizes; its partner is `Documents.TotalOfKilobyteRows` |
| Documents.TotalText | scripts.js:486-491 | definition: the size text of the total; its partner is `Documents.TotalExample` |
| Documents.TotalSizeAppend | scripts.js:480-495 | adding a row adds its size to the total |
| Documents.TotalSizeDelete | scripts.js:810-816 | deleting a row takes exactly its size off the total |
| Documents.TotalSizeReplace | scripts.js:468-474 | replacing a row swaps its size for the new one's |
| Documents.TotalOfKilobyteRows | scripts.js:480-495 | while every row was submitted below 1024 kilobytes, the total is the sum of the submitted sizes |
| Documents.KilobyteRowSize | scripts.js:482 | a kilobyte row is counted at its submitted size |
| Documents.KilobyteTextExamples | scripts.js:466 | 500 and 600 read "500 KB" and "600 KB" |
| Documents.MegabyteTextExamples | scripts.js:466 | 1536 reads "1.50 MB" and 1100 reads "1.07 MB" |
| Documents.TotalExample | scripts.js:480-495 | rows of 500 and 600 kilobytes total "1.07 MB" |
| Documents.EmptyTotalText | scripts.js:480-491 | an empty table totals "0 KB" |
| Documents.KilobyteTotalExample | scripts.js:480-485 | rows of "500 KB" and "600 KB" total 1100 kilobytes |
| Documents.KilobyteTotal | scripts.js:480-485 | two rows below 1024 kilobytes total the sum of their sizes |
| Documents.TableObj.constructor | scripts.js:745-754 | a new table has no rows |
| Documents.TableObj.AddRow | scripts.js:758-795 | the row goes last |
| Documents.TableObj.ReplaceRow | scripts.js:470-471 | only the row at the position is replaced |
| Documents.TableObj.EmitEditEvent | scripts.js:797-809 | an edit request is sent exactly when `parseInt` with no radix reads the index text as a row's position, and carries that position and row |
| Documents.TableObj.DeleteRow | scripts.js:810-816 | the rows become `splice(parseInt(index), 1)` of the old rows, parsed with no radix and with NaN read as 0 |
| Documents.ButtonIndexNamesRow | scripts.js:781-798 | the `data-index` a row's buttons carry parses back, with no radix, to the row's position |
| Documents.Step4Handler.constructor | scripts.js:383-430 | an empty table, a closed lightbox with no edit index, and the total "0 KB" as `calculateTotalFileSize` computes it |
| Documents.Step4Handler.CalculateTotalFileSize | scripts.js:480-495 | the shown total is the size text of the sum of the rows' parsed sizes |
| Documents.Step4Handler.SelectFile | scripts.js:432-440 | the form gets the trimmed file name and a size from 50 to 499 |
| Documents.Step4Handler.HandleFormSubmit | scripts.js:461-478 | with no edit index the submitted row is added, otherwise it replaces the row being edited; the edit index is cleared and the total recomputed |
| Documents.Step4Handler.StoreRow | scripts.js:468-474 | the same, for an already rewritten row |
| Documents.Step4Handler.RequestEdit | scripts.js:442-459 | an edit opens the lightbox on the row at the index `parseInt` with no radix reads, exactly when it is a row's position, and otherwise changes nothing |
| Documents.Step4Handler.DeleteRow | scripts.js:810-816 | the row goes as `splice` removes it at the index `parseInt` with no radix reads, and the total is recomputed |
| Panels.SplitWords | scripts.js:721 | the replace keeps the first character and only lengthens the text |
| Panels.SplitWordsSeparates | scripts.js:721 | after the replace no lower-case letter is directly followed by an upper-case one |
| Panels.SplitWordsOnlyAddsSpaces | scripts.js:721 | the replace only inserts spaces: without spaces the text is unchanged |
| Panels.SplitWordsKeepsSeparated | scripts.js:721 | text with no joined word boundary is left as it is |
| Panels.Spaced | scripts.js:721 | reference for the replace: every character in turn, with one space after each lower-case letter directly followed by an upper-case one; it only lengthens the text |
| Panels.SplitWordsIsSpaced | scripts.js:721 | the global replace equals the reference: exactly one space in every join and nothing else changed |
| Panels.ToUpper | scripts.js:722 | `toUpperCase` turns each lower-case ASCII letter into the same letter in upper case and leaves every other character |
| Panels.CapitalizeFirst | scripts.js:722 | only the first character changes, capitalised unless it is a line terminator |
| Panels.TrimKeepsSeparated | scripts.js:723 | trimming creates no joined word boundary |
| Panels.CapitalizeKeepsSeparated | scripts.js:722 | capitalising creates no joined word boundary |
| Panels.FormatKey | scripts.js:718-724 | a formatted key has every word boundary separated |
| Panels.FormatKeyFirst | scripts.js:718-724 | a key starting with a visible character keeps it, capitalised, in front |
| Panels.TrimUnspaced | scripts.js:723 | text with no white space at either end is its own trim |
| Panels.PanelRows | scripts.js:651-659 | a panel shows at most one row per property, and only truthy values |
| Panels.PanelRowsShowTruthy | scripts.js:651-659 | every truthy value is shown, with the label of its position |
| Panels.PanelRowsFromData | scripts.js:651-659 | every row shown comes from a truthy property at some position |
| Panels.RowLabel | scripts.js:655 | definition: the panel's own non-empty label at that position, else the formatted key; its partner is `Panels.PanelRowsAtTruthyPositions` |
| Panels.TruthyPositions | scripts.js:651-659 | the positions of the truthy values: each truthy, strictly increasing, and every truthy position listed |
| Panels.PanelRowsAtTruthyPositions | scripts.js:651-659 | the rows are, in order, one per truthy position: the label of that position and its value |
| PanelExamples.FormatKeyOfCamelCase | scripts.js:718-724 | `formatKey("altPhone")` is "Alt Phone" |
| PanelExamples.FormatKeyOfFieldName | scripts.js:718-724 | `formatKey("s3-repname")` is "S3-repname" |
| Review.LegalRepEntries | scripts.js:546-552 | the legal representative gives five rows, each property under its label or "N/A", and none when there is no legal representative |
| Review.RecipientEntries | scripts.js:554-560 | a recipient gives four rows when its alternate telephone is not blank and three otherwise |
| Review.RecipientRow | scripts.js:554-558 | row `q` of a recipient is field `q` under its numbered label, or "N/A" |
| Review.AltPhoneKept | scripts.js:557-558 | a non-blank alternate telephone is truthy, so `\|\| "N/A"` keeps it |
| Review.RecipientKeyInjective | scripts.js:554-558 | different recipients or fields never share a label, even past recipient 9 |
| Review.LegalRepKeysApart | scripts.js:546-558 | no legal-representative row has a recipient's label |
| Review.RecipientEntriesUnique | scripts.js:554-558 | a recipient's rows have different labels |
| Review.Step3EntriesUnique | scripts.js:540-560 | no assignment in the step-3 block overwrites an earlier row |
| Review.Step3BlockAt | scripts.js:553-560 | recipient `k`'s rows sit, in order, right after the rows of the recipients before it |
| Review.Step3RecipientRows | scripts.js:553-560 | recipient `k`'s name row holds its name or "N/A", and it has an alternate-telephone row exactly when that telephone is not blank, holding the telephone |
| Review.Step3LegalRepFirst | scripts.js:546-552 | the step-3 panel starts with the five legal-representative rows when there is one, and otherwise holds only the recipients' rows |
| Review.AssignLegalRepRow | scripts.js:547-551 | one assignment adds the next legal-representative row |
| Review.FormatLegalRep | scripts.js:546-552 | the `if (legalRep)` block builds exactly the legal representative's rows |
| Review.AssignRecipientRow | scripts.js:554-556 | one assignment adds the recipient's next row |
| Review.AssignAltPhoneRow | scripts.js:557-559 | the alternate-telephone assignment adds the fourth row |
| Review.AssignRequiredRows | scripts.js:554-556 | the three unconditional assignments add the name, address and telephone rows |
| Review.FormatRecipient | scripts.js:553-560 | one callback call adds exactly the recipient's rows |
| Review.FormatStep3 | scripts.js:540-560 | the step-3 block builds the legal representative's rows, then each recipient's, in order |
| Review.Step3Entries | scripts.js:540-560 | definition: the legal representative's rows followed by every recipient's; its partners are `Review.Step3LegalRepFirst`, `Review.Step3BlockAt` and `Review.FormatStep3` |
| Review.RecipientKey | scripts.js:554-558 | definition: the label "Mail Recipient <k+1> <field>"; its partner is `Review.RecipientKeyInjective` |
| Review.HasAltPhone | scripts.js:557 | definition: the recipient's `altPhone` is a string that is not blank once trimmed; its partner is `Review.AltPhoneKept` |
| Review.Attachments | scripts.js:562-568 | definition: the Attachments sub-table of step 5's documents; its partner is `Review.DocumentsOnlyInSubTable` |
| Review.LabelledLastWins | scripts.js:572-577 | a field shows its value under its label unless a later field has the same label |
| Review.LabelledFromFields | scripts.js:572-577 | every row comes from a field, under that field's label |
| Review.LabelFields | scripts.js:572-577 | the labelling loop builds exactly the specified rows |
| Review.QuestionLabel | scripts.js:574 | definition: the step's own non-empty label at that position, else the label the page gives the key; its partner is `Review.LabelledFromFields` |
| Review.LabelledEntries | scripts.js:572-577 | definition: the fields assigned in order under their question labels; its partners are `Review.LabelledLastWins` and `Review.LabelFields` |
| Review.ObjectFields | scripts.js:573 | definition: the properties of a stored object in order; its partner is `Review.LabelledDeletedOrigin` |
| Review.StepPanel | scripts.js:580-588 | a step's panel carries the step's title and the step number as its edit index |
| Review.PanelsOfOrigin | scripts.js:525-589 | every panel is the panel of one of the steps |
| Review.PanelsOfOrdered | scripts.js:525-589 | the panels follow the step order |
| Review.PanelsOfPresence | scripts.js:534-589 | a step has its panel exactly when its record is truthy |
| Review.PanelsOfLength | scripts.js:525-589 | there are at most as many panels as steps |
| Review.PanelsOf | scripts.js:533-589 | definition: the panels of the steps with a truthy record, in order; its partners are the `Review.PanelsOf*` lemmas |
| Review.ReviewPanels | scripts.js:522-589 | definition: the panels of the five review steps; its partner is `Review.ReviewSkipsEmptySteps` |
| Review.ReviewSkipsEmptySteps | scripts.js:522-589 | on the review page each of the five steps has a panel exactly when it has a record, there are at most five, and they are in step order |
| Review.DocumentsOnlyInSubTable | scripts.js:561-569 | when step 5 has documents they go to the Attachments sub-table, and every row of the panel holds the value of another stored field |
| Review.LabelledDeletedOrigin | scripts.js:569-577 | after `delete data[key]` every labelled row holds the value of a field other than `key` |
| Review.Step5Handler.constructor | scripts.js:499-520 | the handler fills the review page at once |
| Review.Step5Handler.BuildPanel | scripts.js:536-588 | the body of the callback builds exactly the step's panel |
| Review.Step5Handler.PopulateReview | scripts.js:522-589 | the page ends with exactly the specified panels |
| Reach.RankBound | scripts.js:1051-1077 | a number above every rank bounds the recursion |
| Reach.ReachListMembers | scripts.js:1066-1076 | hiding a list of targets hides exactly the union of what hiding each one hides |
| Reach.ReachAllHolds | scripts.js:1027-1031 | hiding each of a list hides each member |
| Reach.ReachSetClosed | scripts.js:1064-1076 | hiding an element hides the element itself, and everything that hiding any of its nested targets hides |
| Reach.ReachSetLeast | scripts.js:1051-1077 | and nothing more: any set that holds the element and is closed under nested targets holds all of it |
| Reach.ReachListLast | scripts.js:1066-1076 | hiding one more target adds exactly what it hides |
| Disclosure.Resolve | scripts.js:1028 | `getElementById` finds the first element with the id, and null for the empty id or an unknown one |
| Disclosure.Resolved | scripts.js:1025-1031 | the listed ids that name an element, and only those, are resolved |
| Disclosure.Descendants | scripts.js:1055 | `querySelectorAll` inside an element finds exactly the elements it contains |
| Disclosure.NamedInputs | scripts.js:1019 | the group's inputs are exactly the inputs with that name |
| Disclosure.TargetsOf | scripts.js:1021-1033 | the targets of the toggles of a list of elements are exactly those their ids resolve to |
| Disclosure.Targets | scripts.js:1065-1076 | the nested targets of an element are exactly the targets of the toggles it contains |
| Disclosure.GroupTargets | scripts.js:1019-1034 | the targets of a group are exactly those of the toggles of its inputs |
| Disclosure.ClosestFieldset | scripts.js:1037 | `closest("fieldset")` is the element itself when it is a fieldset, else the nearest enclosing fieldset (every other enclosing fieldset encloses it), and none only when neither the element nor anything around it is a fieldset |
| Disclosure.LaterFieldsets | scripts.js:1039-1045 | the fieldsets among the later siblings, in order |
| Disclosure.HideAll | scripts.js:1051-1062 | hiding a set of elements keeps the state well formed |
| Disclosure.HideAllNothing | scripts.js:1051-1062 | hiding nothing changes nothing |
| Disclosure.HideAllCompose | scripts.js:1051-1077 | hiding one set and then another is hiding both at once |
| Disclosure.HideAllTwice | scripts.js:1051-1062 | hiding is idempotent |
| Disclosure.HideAllEffect | scripts.js:1051-1062 | the hidden elements get the `hidden` class, the boxes inside them are unchecked and the fields inside them emptied; everything outside keeps its class and contents |
| Disclosure.HideStep | scripts.js:1027-1031 | one more round of a hiding loop hides what the next target reaches |
| Disclosure.Page.constructor | scripts.js:956-969 | the page starts in the given state |
| Disclosure.Page.HideOne | scripts.js:1052-1062 | hides one element and clears the fields inside it, and nothing else |
| Disclosure.Page.Reveal | scripts.js:1002 | removes the `hidden` class of one element, and nothing else |
| Disclosure.Page.SetHidden | scripts.js:1099-1108 | sets or removes one element's `hidden` class, and nothing else |
| Disclosure.CheckedIds | scripts.js:1080 | `input:checked` yields exactly the ids of the checked boxes |
| Disclosure.AllSelected | scripts.js:1082 | a condition holds exactly when every id in it is selected |
| Disclosure.IsOut | scripts.js:1082 | the applicant is out exactly when some condition holds |
| Disclosure.OutMeansIneligibleAnswer | scripts.js:960-967 | with the wizard's conditions the applicant is out exactly when one of the five ineligible answers is checked |
| Disclosure.NavHidden | scripts.js:1088-1110 | without an out button nothing changes; being out hides next and back and shows out, and being in does the reverse; nothing else changes |
| Disclosure.NavHiddenIdempotent | scripts.js:1088-1110 | setting the buttons twice for the same answer is setting them once |
| Disclosure.ProgressiveDisclosure.constructor | scripts.js:957-969 | the controller works on the given page |
| Disclosure.ProgressiveDisclosure.HideWithSubfields | scripts.js:1051-1077 | the recursion hides exactly what the element reaches through nested targets, and clears the fields inside |
| Disclosure.ProgressiveDisclosure.HideEach | scripts.js:1027-1031 | hiding each of a list in turn hides everything each reaches |
| Disclosure.ProgressiveDisclosure.HideOtherTargets | scripts.js:1015-1047 | hides the targets of the group's inputs and, when the element's fieldset is hidden, every later sibling fieldset |
| Disclosure.ProgressiveDisclosure.HandleToggle | scripts.js:984-1012 | hides the group's other targets, then reveals the element's own targets when it is checked |
| Disclosure.ProgressiveDisclosure.OutCheck | scripts.js:1079-1086 | computes whether the checked answers meet an out condition and sets the buttons for it |
| Disclosure.ProgressiveDisclosure.UpdateNavigationButtons | scripts.js:1088-1110 | sets the buttons' `hidden` classes for the answer |
| Disclosure.ProgressiveDisclosure.HandleInputChange | scripts.js:979-982 | a change toggles first and then sets the buttons from the resulting checked answers |
| Disclosure.AfterHideOthers | scripts.js:1015-1047 | the state after `hideOtherTargets` is well formed |
| Disclosure.RevealAll | scripts.js:994-1004 | revealing targets clears only their `hidden` class |
| Disclosure.AfterToggle | scripts.js:984-1012 | the state after `handleToggle` is well formed |
| Disclosure.HideOthersHidesGroup | scripts.js:1019-1034 | after a change of a named input every target of its group is hidden |
| Disclosure.HideOthersHidesLaterFieldsets | scripts.js:1036-1046 | when hiding the group's targets leaves the input's fieldset hidden, every later sibling fieldset ends up hidden |
| Disclosure.ToggleExclusive | scripts.js:984-1034 | after a change, a group target stays visible only when it is a target of the checked element that changed |
| Disclosure.UnnamedOnlyReveals | scripts.js:1016-1018 | an unnamed element hides nothing: its change only reveals its own targets |

## Left out

- Rendering, styling and layout are not modelled. This covers the HTML that `PanelObj.render` and `TableObj.refreshTable` write, badge colours, `adjustMaxHeight` and the `MutationObserver`. The model keeps only the decisions they make: which rows, labels, badges and `hidden` classes.
- Events are direct calls. The `dataUpdated`, `formSubmitted`, `editRow` and `rowDeleted` listeners are folded into the methods that send them. `Representatives.Step3Handler.SaveData` folds the `dataUpdated` listener into the save.
- `sessionStorage` and `JSON.stringify`/`JSON.parse` are a map from keys to `Json` values. `saveData(key, undefined)`, which stores nothing readable, is not modelled.
- The random size `selectFile` draws is the `roll` parameter.
- Redirects, the `loadStoredData` restore, jumping to a step by clicking its header, the initial page bootstrap and the step-1, step-2 and task-list handlers are not modelled. They only read the page or navigate away.
- Step5Handler's `navigateToStep` and `editPanelEvent` listeners (scripts.js:506-508 and 592-594) are not modelled. Both call `setActive(steps[event.detail.index])`. The first answers a review panel's Edit button (scripts.js:727-730). The second also fires on step 3's Edit buttons, once step 5's handler exists, and is added again on every `populateReview`. So an Edit click on mail recipient k also makes step k active, recipient 0 sends the wizard to step 0, and the legal representative's Edit (index "legalRep") leaves the active step alone. `Representatives.Step3Handler.EditPanelData` and `Wizard.Stepper.SetActive` are modelled separately, and the model does not chain them.
- `getLabelForInput` reads labels from the document. It is the `labelFor` parameter of `Step5Handler`.
- Representatives.Step3Handler.EditPanelData: requires a valid target, as the panels it is called from provide (proved by `PanelTargetsValid`). For any other index the source opens the lightbox and then throws in `populateForm` on `Object.keys(undefined)` (scripts.js:920), before the edit index is set.
- Representatives.Step3Handler.HandleFormSubmit: requires a position edit index to be within the recipients. The source would write past the end of the array otherwise.
- Documents.Step4Handler.HandleFormSubmit: requires a position edit index to be within the rows, for the same reason.
- Disclosure.NavHidden: requires the next and back buttons to exist wherever an out button does. The source would throw on a missing one.
- Disclosure.ProgressiveDisclosure.HideWithSubfields: the page's target graph is required to have no cycle. A ghost rank witnesses this. On a cyclic page the source recurses without end.
- Objects.Put: a new key always goes last. JavaScript lists array-index keys such as "1" first, in numeric order; the wizard's keys are field names, labels and storage keys, never array indices.
- Documents.Step4Handler.constructor: the page is taken to have the browse button. Without it the source returns at scripts.js:397 before attaching any listener or computing the total, so submissions, edits and deletes never reach the handler.
- Review.ObjectFields: a stored value that is not an object reads as having no properties, where `Object.keys` would list a string's or an array's indices. The steps only ever store objects.
- Json.ArrayItems: a truthy stored value that is not an array reads as no items. The source keeps such a value through `|| []` (scripts.js:211, 226, 543), and the next `forEach` on it throws a TypeError (scripts.js:301, 553). The wizard itself only ever stores an array under `mailRecipients`, so the model does not carry that failure.
- Json.MemberOr: properties are read only from objects. A recipient or legal representative that is not an object has none.
- Review.HasAltPhone: an `altPhone` that is not a string counts as absent. The source would throw on `trim` of a non-string truthy value.
- Panels.ToUpper: upper-cases ASCII letters only. Other letters are left as they are.
- Text.IntToString: models `String(n)` only for magnitudes below 10^21, where JavaScript writes plain digits.
- Floating point is replaced by exact integer arithmetic. This applies to `toFixed(2)` of a size in megabytes, which rounds half up here. Sizes and totals are integers of kilobytes, so no fraction other than the one divided by 1024 arises.
- `FormLightbox.clearFormData` and `populateForm` only reset or fill the form's inputs in the document, so they are not modelled.
- `Step4Handler.openEditLightbox` fills the form's inputs through the DOM. Only its lightbox state and the row shown are modelled.
- The acronym-preserving replace of `formatKey` (`/([A-Z]{2,})/g` replaced by the match itself) changes nothing and is left out.
