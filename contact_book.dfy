/**
 * The contact book application without its window: the list of records it
 * holds, the rows its list box shows, and what its backing file holds. The
 * form inputs and the list-box selection are parameters of the actions, and
 * each error dialog is an Error outcome.
 */
module ContactBookApp {
  import opened Contacts

  class ContactBook {
    /** The records, in the order they were added. */
    var contacts: seq<Contact>
    /** The rows shown in the list box. */
    var listbox: seq<string>
    /** The records last written to the backing file; None while there is no file. */
    var saved: Option<seq<Contact>>

    /**
     * The list box never shows more rows than there are records, so a
     * selected row is always a valid position in `contacts`.
     */
    ghost predicate Valid()
      reads this
    {
      |listbox| <= |contacts|
    }

    /** Start-up: the records of the backing file, or none when it does not exist. */
    constructor (file: Option<seq<Contact>>)
      ensures Valid()
      ensures contacts == (if file.Some? then file.value else [])
      ensures listbox == [] && saved == file
    {
      contacts := if file.Some? then file.value else [];
      listbox := [];
      saved := file;
    }

    /** Writes the whole list to the backing file. */
    method Save()
      modifies this`saved
      ensures saved == Some(contacts)
    {
      saved := Some(contacts);
    }

    /** Clears the list box and inserts one row per record of `cs`, in order. */
    method Show(cs: seq<Contact>)
      modifies this`listbox
      ensures listbox == Render(cs)
    {
      listbox := [];
      for i := 0 to |cs|
        invariant listbox == Render(cs[..i])
      {
        listbox := listbox + [Line(cs[i])];
        assert cs[..i + 1][..i] == cs[..i];
      }
      assert cs[..|cs|] == cs;
    }

    /** Refuses a form without name or phone; otherwise appends its record and saves. */
    method AddContact(f: Form) returns (o: Outcome)
      requires Valid()
      modifies this`contacts, this`saved
      ensures Valid()
      ensures o == if f.name == "" || f.phone == "" then Error(RequiredFieldsMissing) else Success
      ensures o.Error? ==> ErrorText(o.reason) == "Name and Phone are required fields."
      ensures o.Success? ==> contacts == old(contacts) + [FromForm(f)] && saved == Some(contacts)
      ensures o.Error? ==> contacts == old(contacts) && saved == old(saved)
      ensures AllHaveRequired(old(contacts)) ==> AllHaveRequired(contacts)
    {
      if f.name == "" || f.phone == "" {
        return Error(RequiredFieldsMissing);
      }
      contacts := contacts + [FromForm(f)];
      Save();
      o := Success;
    }

    /** Shows every record in the list box. */
    method ViewContacts()
      modifies this`listbox
      ensures Valid()
      ensures listbox == Render(contacts)
    {
      Show(contacts);
    }

    /** Shows the records whose name or phone equals the search term; changes no record. */
    method SearchContact(f: Form) returns (o: Outcome)
      requires Valid()
      modifies this`listbox
      ensures Valid()
      ensures o == if f.name == "" && f.phone == "" then Error(SearchTermMissing) else Success
      ensures o.Error? ==> ErrorText(o.reason) == "Please enter a name or phone number to search."
      ensures o.Success? ==> listbox == Render(Filter(contacts, SearchTerm(f).value))
      ensures o.Error? ==> listbox == old(listbox)
      ensures contacts == old(contacts) && saved == old(saved)
    {
      var term := SearchTerm(f);
      if term.None? {
        return Error(SearchTermMissing);
      }
      var found := Filter(contacts, term.value);
      Show(found);
      o := Success;
    }

    /**
     * Merges the form into the record at the selected position, saves, and
     * shows all records again. The selected row is used as a position in
     * `contacts` even when the list box shows search results.
     */
    method UpdateContact(selection: Option<nat>, f: Form) returns (o: Outcome)
      requires Valid()
      requires selection.Some? ==> selection.value < |listbox|
      modifies this`contacts, this`saved, this`listbox
      ensures Valid()
      ensures o == if selection.None? then Error(NoContactToUpdate) else Success
      ensures o.Error? ==> ErrorText(o.reason) == "Please select a contact to update."
      ensures o.Error? ==> contacts == old(contacts) && saved == old(saved) && listbox == old(listbox)
      ensures o.Success? ==>
        && |contacts| == |old(contacts)|
        && contacts[selection.value] == Merge(old(contacts)[selection.value], f)
        && (forall k :: 0 <= k < |contacts| && k != selection.value ==> contacts[k] == old(contacts)[k])
        && saved == Some(contacts)
        && listbox == Render(contacts)
      ensures AllHaveRequired(old(contacts)) ==> AllHaveRequired(contacts)
    {
      if selection.None? {
        return Error(NoContactToUpdate);
      }
      var i := selection.value;
      contacts := contacts[i := Merge(contacts[i], f)];
      Save();
      o := Success;
      ViewContacts();
    }

    /**
     * Removes the record at the selected position, saves, and shows all
     * records again; as with update, the row is taken as a position in `contacts`.
     */
    method DeleteContact(selection: Option<nat>) returns (o: Outcome)
      requires Valid()
      requires selection.Some? ==> selection.value < |listbox|
      modifies this`contacts, this`saved, this`listbox
      ensures Valid()
      ensures o == if selection.None? then Error(NoContactToDelete) else Success
      ensures o.Error? ==> ErrorText(o.reason) == "Please select a contact to delete."
      ensures o.Error? ==> contacts == old(contacts) && saved == old(saved) && listbox == old(listbox)
      ensures o.Success? ==>
        && contacts == RemoveAt(old(contacts), selection.value)
        && saved == Some(contacts)
        && listbox == Render(contacts)
      ensures AllHaveRequired(old(contacts)) ==> AllHaveRequired(contacts)
    {
      if selection.None? {
        return Error(NoContactToDelete);
      }
      contacts := RemoveAt(contacts, selection.value);
      Save();
      o := Success;
      ViewContacts();
    }
  }

  /**
   * Two adds, a search by phone, then a delete of the only row shown. The
   * row shows Bob, but row 0 is position 0 of the records, so Ann is removed.
   */
  method SearchThenDelete()
  {
    var ann, bob := Contact("Ann", "555-1000", "", ""), Contact("Bob", "555-2000", "", "");
    SearchThenDeleteRecords();
    var book := new ContactBook(None);
    var o := book.AddContact(Form("Ann", "555-1000", "", ""));
    assert book.contacts == [ann];
    o := book.AddContact(Form("Bob", "555-2000", "", ""));
    assert book.contacts == [ann, bob];
    o := book.SearchContact(Form("", "555-2000", "", ""));
    assert book.listbox == ["Bob - 555-2000"];
    o := book.DeleteContact(Some(0));
    assert book.contacts == [bob];
  }

  /** The values the scenario above goes through. */
  lemma SearchThenDeleteRecords()
    ensures var ann, bob := Contact("Ann", "555-1000", "", ""), Contact("Bob", "555-2000", "", "");
      && Render(Filter([ann, bob], "555-2000")) == ["Bob - 555-2000"]
      && RemoveAt([ann, bob], 0) == [bob]
  {
    var ann, bob := Contact("Ann", "555-1000", "", ""), Contact("Bob", "555-2000", "", "");
    SingleMatch([ann, bob], "555-2000", 1);
    assert Render([bob]) == [Line(bob)];
    assert Line(bob) == "Bob - 555-2000";
  }
}
