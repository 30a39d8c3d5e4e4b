# Contact book: the record store and its five actions

This project models the in-memory record store of the contact book
application (`contact_book.py`). The store is an ordered list of contacts. Each
contact has four string fields: name, phone, email and address. Five actions
work on it, each triggered by a button:

- **add** refuses a form whose name or phone is empty. Otherwise it appends the
  record and saves the list.
- **view** fills the list box with one `name - phone` row per record.
- **search** takes the name input, or the phone input when the name is empty.
  It then shows the records whose name or phone equals that term exactly.
- **update** merges the form into the record at the selected position. An empty
  input keeps the old value. It then saves and shows every record again.
- **delete** removes the record at the selected position. It then saves and
  shows every record again.

Two modules:

- `Contacts` (`contacts.dfy`) holds the values and the pure logic. It has the
  `Contact` record and the `Form` of four inputs. Its functions are the search
  term, the exact-match `Filter` and its `MatchPositions`, the `Line`/`Render`
  rows, the field-wise `Merge` and `RemoveAt`. The lemmas about them sit beside
  them.
- `ContactBookApp` (`contact_book.dfy`) holds the class `ContactBook`. Its
  fields are `contacts` (the list of records), `listbox` (the rows on screen)
  and `saved` (what the backing file holds, `None` while no file exists). Each
  action is a method. The form inputs and the list-box selection
  (`Option<nat>`) are parameters. Each error dialog is an `Error(...)` outcome.

**Selection.** The source indexes `self.contacts` directly with the selected
list-box row (lines 117 and 134). It checks only that some row is selected
(lines 113 and 130) and does no range check. The model keeps that indexing. It
requires that a selection is a row of the list box, `selection.value <
|listbox|`, since the list box can select nothing else. The class invariant
`Valid()` states `|listbox| <= |contacts|`. Every action keeps it: search shows
at most as many rows as there are records, add only adds records, and update
and delete re-render. So, as long as every save completes (see "## Left out"),
the selected position lies inside `contacts` and the indexing at lines 117 and
134 does not fail.

**Rows after a search.** Because of this indexing, `DeleteContact` removes
`old(contacts)[r]` for the selected row `r`, and `UpdateContact` merges into
`old(contacts)[r]`, whatever the list box shows. After a search the list box
shows `Render(Filter(contacts, term))`, so row `r` shows
`Filter(contacts, term)[r]`, which sits at position `MatchPositions(contacts,
term)[r]` of the list, and that is in general not `r`. The method
`ContactBookApp.SearchThenDelete` walks through one instance: add Ann, then
Bob; search for Bob's phone, which shows the single row `Bob - 555-2000`;
delete row 0. Ann is removed and Bob stays.

**Delete asks for no confirmation.** The contact delete removes the record
straight away (lines 128-137), unlike the delete of the to-do application,
which asks first (`To-Do .py`, line 135).

## Model

| member | source | states |
|---|---|---|
| ContactBookApp.ContactBook.constructor | contact_book.py:63-68 | the records are the backing file's when it exists, otherwise empty; the list box starts empty |
| ContactBookApp.ContactBook.Save | contact_book.py:70-72 | afterwards the backing file holds exactly the current list |
| ContactBookApp.ContactBook.Show | contact_book.py:107-109 | the list box is cleared, then holds one row per given record, in order |
| ContactBookApp.ContactBook.AddContact | contact_book.py:74-93 | an empty name or phone gives the required-fields error, whose dialog text is "Name and Phone are required fields.", and changes neither the list nor the file; whitespace-only values pass. Otherwise the list grows by exactly the new record at the end, holding the four inputs verbatim; earlier records are kept; duplicates are allowed. The file then equals the list, and the list box is untouched. Records that all had name and phone still do |
| ContactBookApp.ContactBook.ViewContacts | contact_book.py:95-98 | the list box shows exactly `Render(contacts)`, and the invariant holds again |
| ContactBookApp.ContactBook.SearchContact | contact_book.py:100-109 | with name and phone both empty, gives the search-term error (dialog text "Please enter a name or phone number to search.") and leaves the list box unchanged. Otherwise the list box shows the rows of `Filter(contacts, term)`, where the term is the name, or the phone if the name is empty. Records and file are never changed |
| ContactBookApp.ContactBook.UpdateContact | contact_book.py:111-126 | no selection gives the update error (dialog text "Please select a contact to update.") and changes nothing. Otherwise the record at the selected position becomes `Merge(old record, form)`. The length and every other record are unchanged, the file equals the list, and the list box shows all records. No record loses a required field |
| ContactBookApp.ContactBook.DeleteContact | contact_book.py:128-137 | no selection gives the delete error (dialog text "Please select a contact to delete.") and changes nothing. Otherwise the list becomes `RemoveAt(old list, position)`, the file equals the list, and the list box shows all records |
| ContactBookApp.SearchThenDeleteRecords | contact_book.py:106-109 | over the records Ann and Bob, a search for Bob's phone shows the single row `Bob - 555-2000`, and removing position 0 leaves only Bob |
| Contacts.SearchTerm | contact_book.py:101-104 | no term exactly when name and phone are both empty. A term is never empty. It is the name whenever the name is non-empty, otherwise the phone |
| Contacts.Filter | contact_book.py:106 | the result is no longer than the list; every result matches the term exactly by name or phone, and occurs in the list |
| Contacts.MatchPositions | contact_book.py:106 | the i-th search result is the record at a position in the list, and these positions strictly increase: the result is an order-preserving subsequence |
| Contacts.MatchPositionsComplete | contact_book.py:106 | every position whose record matches is among the positions of the result: no match is dropped |
| Contacts.FilterCounts | contact_book.py:106 | a matching record occurs in the result as often as in the list; a non-matching one never |
| Contacts.FilterAppend | contact_book.py:106 | filtering a concatenation is the concatenation of the filtered parts |
| Contacts.FilterNone | contact_book.py:106 | when no record matches, the result is empty |
| Contacts.FilterAll | contact_book.py:106 | when every record matches, the result is the whole list |
| Contacts.SingleMatch | contact_book.py:106 | when exactly one record matches, the result is that record alone |
| Contacts.Render | contact_book.py:97-98 | one row per record, in list order, each the record's `name + " - " + phone` |
| Contacts.Merge | contact_book.py:117-121 | each non-empty input replaces its field and each empty input keeps the old value; a record with name and phone keeps them non-empty |
| Contacts.MergeEmptyForm | contact_book.py:117-121 | an update with all four inputs empty leaves the record unchanged |
| Contacts.MergeIdempotent | contact_book.py:117-121 | applying the same form twice gives the same record as applying it once |
| Contacts.RemoveAt | contact_book.py:134 | the result has one record fewer. Records before the position are unchanged, records after it move down by one, and the multiset loses exactly the removed record |

## Left out

- The window: widget construction and layout, `setup_ui`, the `StringVar`
  reads, `clear_fields` after a successful add or update, the success dialogs,
  and `mainloop`. The inputs are method parameters. The error dialogs are
  `Error` outcomes; `Contacts.ErrorText` gives each one's dialog text, and each
  action's contract names the text of its own error.
- JSON encoding and file I/O in `load_contacts` and `save_contacts`. The
  backing file is represented by the snapshot `saved`. The model assumes that
  JSON writes and reads the list back unchanged, and does not prove it.
- ContactBookApp.ContactBook.constructor: the file is assumed to hold a list of
  records with exactly the four string keys. `json.load` can return records
  that lack a key, which then raise KeyError at line 98 or lines 118-121, or
  records with extra keys, which update keeps; neither is modelled.
- ContactBookApp.ContactBook.Save: a save that raises (an open or write error
  at lines 71-72) is not modelled; `Save` always completes. `Valid()` relies on
  this. If `save_contacts` raised at line 135, after the `del` at line 134 and
  before `view_contacts` at line 137, the list box would keep one row more than
  `contacts`, and a later update or delete of the last row would raise
  IndexError at line 117 or 134. DeleteContact and UpdateContact therefore
  promise nothing about that failure.
- Dictionary identity. `update_contact` mutates the dictionary stored in the
  list. Every dictionary in the list comes from its own `json.load` entry or its
  own `add_contact`, so none is shared. Replacing the record by value is
  therefore equivalent.
- Which record each list-box row shows after a search. The code does not track
  it. `Contacts.MatchPositions` describes the mapping, but the actions do not
  use it, just as the code does not.
- The to-do list application (`To-Do .py`) is not part of this model.
