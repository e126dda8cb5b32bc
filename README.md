# react-crud inventory core, modelled in Dafny

This project models the logic of a small inventory UI. It covers:

- The item drafts that the two form hooks (`useItemFormHandler`, new and older) keep: their defaults, their setters, submit, and the validator that turns a draft into an error record.
- The variant-list editing of the item form and of the add-item test form.
- The way the items page turns the `items` snapshot into grid rows, rebuilds a draft for editing and shapes the record it writes.
- The stand-alone add-item page: its size vocabulary, the selection sorted in place by id, the form reset and the record it pushes.
- The `capitalizedFirst` title-casing helper that both writers apply to names.

Modules:

| file | module | models |
|---|---|---|
| `wrappers.dfy` | `Wrappers` | `Option` (JavaScript `undefined`/`null` versus a value) |
| `text.dfy` | `Text` | `capitalizedFirst` |
| `drafts.dfy` | `Drafts` | the draft, the error record and `validateForm` |
| `variants.dfy` | `VariantEditing` | add, delete (`splice(index, 1)`) and field edits on a variant list |
| `item_form_hook.dfy` | `ItemFormHook` | `src/pages/ItemForm/useItemFormHandler.ts` as a class holding the draft value |
| `legacy_hook.dfy` | `AddItemFormHook` | `src/pages/AddItemForm/useItemFormHandler.ts`; its record `CustomItem` is a heap object |
| `item_form.dfy` | `ItemFormComponent` | `src/pages/ItemForm/ItemForm.tsx` handlers |
| `item_form_test.dfy` | `ItemFormTestComponent` | `src/pages/AddItemForm/ItemFormTest.tsx` handlers |
| `items_page.dfy` | `ItemsPage` | `src/pages/Items/Items.tsx`: rows, edit draft and write command |
| `add_item_form.dfy` | `AddItemFormPage` | `src/pages/AddItemForm/AddItemForm.tsx` |

Modelling conventions:

- The draft's shape follows the hooks, not `src/types.ts`. The variant field `type` is called `kind`, because `type` is a Dafny keyword.
- The validator stores per-variant errors in a sparse JavaScript array. It is modelled as a `seq<Option<VariantError>>`.
  - Its length is one more than the largest failing index, as `errors[i] = …` makes it.
  - Holes are `None`.
- Store writes are returned as values (`StoreWrite`, `NewItemRecord`) rather than performed.
- Store reads are parameters: a snapshot is an `Option<seq<Entry>>` in `Object.keys` order, and the point read of `items/<id>` is an `Option<StoredItem>`.

## Model

| member | source | states |
|---|---|---|
| Text.CapitalizedFirstChars | src/utils/text.ts:1-7 | The result has the input's length. A character that starts a space-separated word is upper-cased, and every other letter is lower-cased. Spaces stay where they were, and non-letters are unchanged, so the empty string maps to itself. |
| Text.CapitalizedFirstWords | src/utils/text.ts:2-6 | Split on spaces, the result has as many words as the input, each of the same length, so empty words stay empty. In every word the first character is not a lower-case letter and no later character is an upper-case letter. |
| Text.CapitalizedFirstIdempotent | src/utils/text.ts:1-7 | Title-casing an already title-cased text changes nothing. |
| Text.JoinSplit | src/utils/text.ts:4-6 | Joining the split words with single spaces gives back the text. |
| Text.SplitJoin | src/utils/text.ts:4-6 | Splitting the join of space-free words gives back the same words. |
| Text.ToLowerHasNoUpper | src/utils/text.ts:3 | The lower-cased text contains no upper-case letter. |
| Drafts.Extent | src/pages/ItemForm/useItemFormHandler.ts:54-59 | The sparse error array's length is at most the variant count. When it is positive, its last index is a failing variant, and every variant at or past it passes. |
| Drafts.AssignAt | src/pages/ItemForm/useItemFormHandler.ts:55 | JavaScript index assignment: the array grows to `i + 1` when `i` is past the end, the slot holds the value, other slots keep their contents, and new slots are holes. |
| Drafts.VariantErrorsNonEmpty | src/pages/ItemForm/useItemFormHandler.ts:45-54 | A variant's record is non-empty exactly when its price is zero or its type is empty. |
| Drafts.CollectVariantErrors | src/pages/ItemForm/useItemFormHandler.ts:43-57 | The loop over the variants builds exactly the sparse array of per-variant records. |
| Drafts.ValidateForm | src/pages/ItemForm/useItemFormHandler.ts:32-69 | The rule-by-rule error record equals the validator function `Validate`. |
| Drafts.EntryRules | src/pages/ItemForm/useItemFormHandler.ts:45-56 | A variant gets an entry exactly when a rule fires. The entry holds "Price required." exactly for a zero price and "Type required." exactly for an empty type, and no other key. |
| Drafts.ValidateNameAndCategory | src/pages/ItemForm/useItemFormHandler.ts:34-40 | A `name` error appears exactly for an empty name, and a `category` error exactly for an empty category, each with its fixed message. |
| Drafts.ValidateSingleSized | src/pages/ItemForm/useItemFormHandler.ts:62-66 | In single-sized mode, a `price` error appears exactly for a zero price. There is never a `variants` key, and the variant list does not influence the result. |
| Drafts.ValidateMultiSized | src/pages/ItemForm/useItemFormHandler.ts:42-61 | In multi-sized mode there is never a `price` error. A `variants` key appears exactly when some variant fails. Its array ends at the last failing variant, and entry `i` is that variant's record or a hole. |
| Drafts.ValidateEmptyIff | src/pages/ItemForm/useItemFormHandler.ts:32-69 | The record is empty exactly when name and category are non-empty and either the price is non-zero (single-sized) or every variant passes (multi-sized). Only the keys name, category, price and variants ever occur. |
| Drafts.ValidateDependsOnlyOnCheckedFields | src/pages/ItemForm/useItemFormHandler.ts:32-69 | Two drafts that agree on name, category, mode, and the price (single) or variant types and prices (multi) get the same record. Cost, stocks, the store key and old errors never matter. |
| Drafts.InitialDraftErrors | src/pages/ItemForm/useItemFormHandler.ts:7-24 | The default draft, submitted untouched, reports exactly the name, category and price errors. |
| Drafts.SingleSizedScenario | src/pages/ItemForm/useItemFormHandler.ts:62-66 | A complete single-sized draft validates to the empty record. |
| Drafts.MultiSizedScenario | src/pages/ItemForm/useItemFormHandler.ts:42-61 | A failing second variant yields a two-slot array with a hole at index 0 and both messages at index 1. |
| ItemFormHook.ItemFormHandler.constructor | src/pages/ItemForm/useItemFormHandler.ts:7-24 | The draft starts with no store key, empty name and category, zeros, one blank variant, single-sized, and no errors. |
| ItemFormHook.ItemFormHandler.Seed | src/pages/ItemForm/useItemFormHandler.ts:26-30 | A given item replaces the draft, and an absent one leaves it alone. |
| ItemFormHook.ItemFormHandler.HandleSubmit | src/pages/ItemForm/useItemFormHandler.ts:71-77 | The new draft is the old one with `errors` set to the validator's record. The callback receives that same new draft. |
| ItemFormHook.ItemFormHandler.SetItemCategory | src/pages/ItemForm/useItemFormHandler.ts:79-83 | Only the category changes. |
| ItemFormHook.ItemFormHandler.SetItemName | src/pages/ItemForm/useItemFormHandler.ts:85-89 | Only the name changes. |
| ItemFormHook.ItemFormHandler.SetIsSingleSized | src/pages/ItemForm/useItemFormHandler.ts:91-95 | Only the single-size flag changes. |
| ItemFormHook.ItemFormHandler.SetItemPrice | src/pages/ItemForm/useItemFormHandler.ts:97-101 | Only the price changes. |
| ItemFormHook.ItemFormHandler.SetItemCost | src/pages/ItemForm/useItemFormHandler.ts:103-107 | Only the cost changes. |
| ItemFormHook.ItemFormHandler.SetItemStocks | src/pages/ItemForm/useItemFormHandler.ts:109-113 | Only the stocks change. |
| ItemFormHook.ItemFormHandler.SetVariants | src/pages/ItemForm/useItemFormHandler.ts:115-119 | Only the variant list changes. |
| ItemFormHook.ResubmitIsStable | src/pages/ItemForm/useItemFormHandler.ts:71-77 | Submitting twice gives the same draft as submitting once, because the validator ignores the stored errors. |
| AddItemFormHook.CustomItem.Value | src/pages/AddItemForm/useItemFormHandler.ts:6-15 | The older record has no store key. |
| AddItemFormHook.CustomItem.constructor | src/pages/AddItemForm/useItemFormHandler.ts:6-15 | A record built from a draft holds that draft's fields. |
| AddItemFormHook.CustomItem.Copy | src/pages/AddItemForm/useItemFormHandler.ts:88 | `{...item}` is a fresh record with equal fields. |
| AddItemFormHook.LegacyItemFormHandler.constructor | src/pages/AddItemForm/useItemFormHandler.ts:17-34 | The record starts with the same defaults as the other hook and no store key. |
| AddItemFormHook.LegacyItemFormHandler.Seed | src/pages/AddItemForm/useItemFormHandler.ts:36-40 | A given record becomes the state by reference, and an absent one leaves it alone. |
| AddItemFormHook.LegacyItemFormHandler.HandleSubmit | src/pages/AddItemForm/useItemFormHandler.ts:42-85 | The validator has the same rules as the other hook's. The error record is written into the current record in place, the state reference is kept, and the callback receives that same reference. |
| AddItemFormHook.LegacyItemFormHandler.SetItemCategory | src/pages/AddItemForm/useItemFormHandler.ts:87-91 | A fresh record with only the category changed becomes the state, and the old record is untouched. |
| AddItemFormHook.LegacyItemFormHandler.SetItemName | src/pages/AddItemForm/useItemFormHandler.ts:93-97 | A fresh record with only the name changed becomes the state, and the old record is untouched. |
| AddItemFormHook.LegacyItemFormHandler.SetIsSingleSized | src/pages/AddItemForm/useItemFormHandler.ts:99-103 | A fresh record with only the flag changed becomes the state, and the old record is untouched. |
| AddItemFormHook.LegacyItemFormHandler.SetItemPrice | src/pages/AddItemForm/useItemFormHandler.ts:105-109 | A fresh record with only the price changed becomes the state, and the old record is untouched. |
| AddItemFormHook.LegacyItemFormHandler.SetItemCost | src/pages/AddItemForm/useItemFormHandler.ts:111-115 | A fresh record with only the cost changed becomes the state, and the old record is untouched. |
| AddItemFormHook.LegacyItemFormHandler.SetItemStocks | src/pages/AddItemForm/useItemFormHandler.ts:117-121 | A fresh record with only the stocks changed becomes the state, and the old record is untouched. |
| AddItemFormHook.LegacyItemFormHandler.SetVariants | src/pages/AddItemForm/useItemFormHandler.ts:123-127 | A fresh record with only the variants changed becomes the state, and the old record is untouched. |
| VariantEditing.AddedProperties | src/pages/ItemForm/ItemForm.tsx:80-89 | Adding keeps every existing variant and appends exactly one blank variant. Deleting at the old length undoes it. |
| VariantEditing.DeleteLastRemainingIsNoOp | src/pages/ItemForm/ItemForm.tsx:91-95 | With exactly one variant, delete leaves the list unchanged. |
| VariantEditing.DeleteRemovesExactlyOne | src/pages/ItemForm/ItemForm.tsx:96-98 | With two or more variants and a valid index, delete removes that variant and keeps the others in order. The multiset loses exactly that one element. |
| VariantEditing.DeletedLength | src/pages/ItemForm/ItemForm.tsx:91-98 | Delete, for any index including negative and out-of-range ones, removes at most one variant and never empties a non-empty list. |
| VariantEditing.ChangedAtTouchesOneField | src/pages/ItemForm/ItemForm.tsx:60-78 | A field edit changes only the named field of variant `index`, and leaves every other variant and the length alone. |
| VariantEditing.ListEditsKeepNonEmpty | src/pages/ItemForm/ItemForm.tsx:80-99 | Any sequence of adds and deletes keeps a non-empty list non-empty. |
| ItemFormComponent.ItemForm.constructor | src/pages/ItemForm/ItemForm.tsx:32-47 | The form starts from the `item` prop when given, else the defaults. It is in update mode exactly when the prop carries a store key. |
| ItemFormComponent.ItemForm.HandleVariantChange | src/pages/ItemForm/ItemForm.tsx:60-78 | The draft's variants become the list with the one edited field of variant `index` replaced, and nothing else changes. |
| ItemFormComponent.ItemForm.HandleVariantAdd | src/pages/ItemForm/ItemForm.tsx:80-89 | The draft's variants gain one blank variant at the end, and nothing else changes. |
| ItemFormComponent.ItemForm.HandleVariantDelete | src/pages/ItemForm/ItemForm.tsx:91-99 | The draft's variants become the spliced copy, or stay as they are with one variant left. A non-empty list stays non-empty. |
| ItemFormComponent.ItemForm.ToggleSingleSized | src/pages/ItemForm/ItemForm.tsx:248 | Only the single-size flag flips. |
| ItemFormComponent.ItemForm.Submit | src/pages/ItemForm/ItemForm.tsx:101-103 | The draft gets its error record. The validated draft is forwarded when `onSubmitClick` is given, and nothing is forwarded otherwise. |
| ItemFormComponent.ToggleTwiceRestores | src/pages/ItemForm/ItemForm.tsx:248 | Two clicks on the checkbox restore the draft. |
| ItemFormComponent.RowErrorShown | src/pages/ItemForm/ItemForm.tsx:230-232 | After a submit, row `i` shows an error exactly when the draft is multi-sized and variant `i` fails, and it shows that variant's record. |
| ItemFormTestComponent.ItemFormTest.constructor | src/pages/AddItemForm/ItemFormTest.tsx:33-47 | The form opens on the older hook's defaults. |
| ItemFormTestComponent.ItemFormTest.HandleVariantChange | src/pages/AddItemForm/ItemFormTest.tsx:49-67 | The new record holds the edited list, and the record it replaced has been changed in place to the same contents. |
| ItemFormTestComponent.ItemFormTest.HandleVariantAdd | src/pages/AddItemForm/ItemFormTest.tsx:69-78 | A fresh record with one blank variant appended becomes the state. The old record is untouched. |
| ItemFormTestComponent.ItemFormTest.HandleVariantDelete | src/pages/AddItemForm/ItemFormTest.tsx:80-88 | With one variant left the same record stays. Otherwise a fresh record holding the spliced copy replaces it. The old record is untouched either way. |
| ItemFormTestComponent.ItemFormTest.ToggleSingleSized | src/pages/AddItemForm/ItemFormTest.tsx:232 | A fresh record with the flag flipped becomes the state. |
| ItemFormTestComponent.ItemFormTest.Submit | src/pages/AddItemForm/ItemFormTest.tsx:90-92 | The current record, annotated in place with its errors, is forwarded by reference when `onSubmitClick` is given. |
| ItemFormTestComponent.RowErrorNeverShown | src/pages/AddItemForm/ItemFormTest.tsx:216 | The row error as written (`errors.variant[i]`) is absent for every draft and every row. |
| ItemFormTestComponent.RowErrorMissedExample | src/pages/AddItemForm/ItemFormTest.tsx:216 | For a multi-sized draft with one blank variant, the item form shows row 0's error and the test form does not. |
| ItemsPage.DecimalString | src/pages/Items/Items.tsx:38 | The decimal rendering of a size index is non-empty and all digits, and it is one digit exactly for indices below ten. |
| ItemsPage.DecimalStringInjective | src/pages/Items/Items.tsx:38 | Different indices render differently. |
| ItemsPage.RowIdInjective | src/pages/Items/Items.tsx:38 | A row id `key + "_" + i` determines both the key and the index, even for keys containing underscores or digits. |
| ItemsPage.RowCount | src/pages/Items/Items.tsx:32-50 | There is one row per stored size, summed over all items. |
| ItemsPage.RowAt | src/pages/Items/Items.tsx:32-49 | The rows of item `e` come after all rows of earlier items, in size order. Row `i` of item `e` carries its id, store key, category, name, size type, price, cost and stocks. |
| ItemsPage.RowIdsUnique | src/pages/Items/Items.tsx:36-39 | With distinct store keys, rows built from different (item, size) pairs have different ids. |
| ItemsPage.PositionOf | src/pages/Items/Items.tsx:32-49 | Every row position belongs to one (item, size) pair: it lies in that item's block, after the rows of all earlier items. |
| ItemsPage.RowIdsDistinct | src/pages/Items/Items.tsx:31-50 | With distinct store keys, no two rows of the flattened snapshot share an id. |
| ItemsPage.FlattenSnapshot | src/pages/Items/Items.tsx:31-50 | The loop over `Object.keys(data)` builds exactly the flattened row sequence. |
| ItemsPage.ItemsView.constructor | src/pages/Items/Items.tsx:16-18 | There are no rows, the modal is closed and no item is being edited. |
| ItemsPage.ItemsView.OnItemsSnapshot | src/pages/Items/Items.tsx:25-55 | A null snapshot leaves the rows alone, and otherwise the rows become the flattened snapshot. |
| ItemsPage.ItemsView.HandleEditClick | src/pages/Items/Items.tsx:64-84 | Missing details change nothing. Otherwise the edit draft rebuilt from the stored item is set and the modal opens. |
| ItemsPage.ItemsView.HandleCloseEditModal | src/pages/Items/Items.tsx:58-62 | Closing the modal forgets the item being edited. |
| ItemsPage.ItemsView.HandleItemSubmitClick | src/pages/Items/Items.tsx:86-130 | An update is issued when an item is being edited, and a create otherwise. Either way it carries the shaped payload. |
| ItemsPage.PayloadFromDraft | src/pages/Items/Items.tsx:88-107 | The payload keeps category and mode. Its name has the draft name's length; each character that starts a word is upper-cased and every other character is lower-cased, so saving it again leaves it as it is. A single-sized draft becomes exactly one "Default" size from the top-level price, cost and stocks. A multi-sized draft sends its variants unchanged. |
| ItemsPage.ValidDraftPayload | src/pages/Items/Items.tsx:88-98 | For a draft with an empty error record, every stored size has a non-zero price and a non-empty type, and a draft with variants stores at least one size. |
| ItemsPage.InvalidDraftStillWritten | src/pages/Items/Items.tsx:86-130 | The default draft has validation errors and is still sent as a create. The page does not look at the errors. |
| ItemsPage.SaveAfterEditRoundTrip | src/pages/Items/Items.tsx:72-107 | The page's edit half (the draft built from a stored item) is joined directly to its save half. The lemma assumes the draft reaches the form, which the prop wiring does not do (see "## Left out"). Saving that draft unchanged writes the stored record back at its own key. This holds when its name is already title-cased and, if it is single-sized, its sizes are the one "Default" entry a save produces. Whatever error record the submit attached does not reach the store. |
| ItemsPage.SaveAfterEditSingleSized | src/pages/Items/Items.tsx:76-95 | Saving a single-sized item after editing stores one "Default" size carrying the first stored size's price, cost and stocks. |
| AddItemFormPage.SizeOptionsProperties | src/pages/AddItemForm/AddItemForm.tsx:56-61 | The vocabulary has one option per entry, option `i` has id `i`, the options are in id order, and their titles are the entries. |
| AddItemFormPage.TitlesOfPermutation | src/pages/AddItemForm/AddItemForm.tsx:121-122 | Reordering the options reorders their titles as a multiset. |
| AddItemFormPage.SortById | src/pages/AddItemForm/AddItemForm.tsx:121 | The array is sorted in place into ascending id order as a permutation of its old contents. |
| AddItemFormPage.AddItemForm.constructor | src/pages/AddItemForm/AddItemForm.tsx:32-42 | The form fields start cleared, with no vocabularies, and not loading. |
| AddItemFormPage.AddItemForm.OnSizesSnapshot | src/pages/AddItemForm/AddItemForm.tsx:52-64 | The vocabulary becomes the converted snapshot. |
| AddItemFormPage.AddItemForm.HandleSelectedSizeChange | src/pages/AddItemForm/AddItemForm.tsx:117-123 | The picker's array is sorted in place by id as a permutation. The selection becomes its titles in that order, with the same length and the same titles as chosen. |
| AddItemFormPage.AddItemForm.ClearItemForm | src/pages/AddItemForm/AddItemForm.tsx:87-95 | Category, name, price, cost, stocks and the selection are reset, and the form is single-sized again. Vocabularies and the loading flag are kept. |
| AddItemFormPage.AddItemForm.HandleSaveClick | src/pages/AddItemForm/AddItemForm.tsx:66-78 | The form turns to loading. The pushed record copies the fields, title-cases the name, and stores the selected titles as sizes. |

## Left out

- Firebase I/O (`onValue`, `push`, `set`, `getRef`) is not performed. Snapshots and point reads are parameters, and writes are returned as values.
- The `setTimeout` delays, the `.then` continuations that close the modal or reset the add-item page, and `navigate('/')` are not modelled.
- Rendering (JSX), the category and size subscriptions of the forms, `VariantForm.tsx`, `ItemSizeForm.tsx` and `useFirebaseRef.ts` are not modelled.
- The add-item page's field handlers (`handleNameChange`, `handlePriceChange`, `handleCostChange`, `handleCategoryChange`, `handleStockChange`) only forward input (through `parseInt`) to React setters, so they are not modelled.
- Numbers are `int`. `parseInt` producing NaN and JavaScript doubles (`0.0`) are not modelled.
- Text.CapitalizedFirst: case mapping is ASCII-only. JavaScript's full-Unicode `toLowerCase`/`toUpperCase` is not modelled.
- ItemFormHook.ItemFormHandler: the draft is a value. The sharing of variant objects between the old and new state is not captured. In the source, the item form's field handlers write into those objects in place, and `{...item}` copies share them. The resulting draft is the same.
- AddItemFormHook.CustomItem: the record is a heap object, but its `variants` is a value. In the source, `{...item}` and `slice()` copy only the top level, so every earlier record shares the same variant objects. Writing into one of those objects is seen by all of these records, including a record already handed to the submit callback by reference. The model does not capture that sharing.
- ItemFormTestComponent.ItemFormTest.HandleVariantChange: the in-place write is captured only as the current record sees it: that record and its replacement both hold the edited list. Earlier records and records already forwarded on submit share the same variant objects in the source (`src/pages/AddItemForm/ItemFormTest.tsx:50-66`), so they see the edit too. In the model they keep their old variants, and the method's frame states that they are unchanged.
- ItemsPage.ItemsView.HandleEditClick: requires a single-sized stored item to have at least one size. The source reads `sizes[0]` there and would throw on an empty list; the throw is not modelled.
- ItemsPage.EditDraft: the source's edit draft has no `errors` field. It is modelled as the empty record, which the forms treat the same way.
- ItemsPage.StoredItem: the model assumes every record under `items` has `sizes` as a list of variants, which is what the items page itself writes. Two other writers store different shapes:
  - the add-item page (`src/pages/AddItemForm/AddItemForm.tsx:71-78`) stores `sizes` as a list of title strings;
  - the app shell (`src/App.tsx:50-57`) stores no `sizes` at all.
  On a title-string record, the items page builds rows whose size, price, cost and stocks are `undefined` (`src/pages/Items/Items.tsx:36-45`), and its edit draft reads `sizes[0].price` from a string (`src/pages/Items/Items.tsx:76`). On a record without `sizes`, `rowObj.sizes.map` throws inside the listener, so the rows are not replaced. None of this is modelled.
  Top-level price, cost and stocks are modelled as integers. Records written by the items page lack them (`undefined`); that absence is not modelled either. The add-item page's size listener has the same kind of gap (next line).
- AddItemFormPage.AddItemForm.OnSizesSnapshot: takes the snapshot as a list and leaves out the `null` snapshot, on which `data.map` throws (`src/pages/AddItemForm/AddItemForm.tsx:56`).
- ItemsPage.ItemsView.HandleItemSubmitClick: for an update whose draft has no store key, the source writes to `items/undefined`. The model writes the key "undefined", the same as the source.
- The items page passes the draft to the form as a prop named `itemToUpdate`, which the form does not read (it reads `item`). The page and the form are modelled separately, each by its own code, and that wiring is not modelled.
- Only error-free drafts being saved is not modelled, because the source does not do it. The items page writes whatever the draft's error record holds (`src/pages/Items/Items.tsx:86-130` never reads it). This is modelled as written, and `ItemsPage.InvalidDraftStillWritten` states it.
- AddItemFormPage.SortById: `Array.prototype.sort` is stable, but the model states only sortedness and permutation, not the relative order of equal ids.
- The four variant field handlers of each form are modelled as one method taking a `VariantEdit` tag that names the field.
- `console.log` and `console.error` calls are not modelled.

## Findings

| source | as written | input that shows it | evidently intended | confidence | as-written member | corrected member |
|---|---|---|---|---|---|---|
| src/pages/AddItemForm/ItemFormTest.tsx:216 | the variant row reads its error from `item.errors.variant`, a key the validator never writes | a multi-sized draft named "Tea" in "Drinks" with one blank variant: the validator reports `variants[0]`, the row shows nothing | read `item.errors.variants[i]`, as `src/pages/ItemForm/ItemForm.tsx:231` does | high; not executed | ItemFormTestComponent.RowErrorAsWritten (with ItemFormTestComponent.RowErrorNeverShown, ItemFormTestComponent.RowErrorMissedExample) | ItemFormComponent.RowError (with ItemFormComponent.RowErrorShown) |
