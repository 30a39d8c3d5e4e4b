/**
 * The records of the contact book and the pure logic applied to them: the
 * choice of search term, the exact-match filter behind a search, the
 * field-wise merge behind an update, removal by position behind a delete,
 * and the one-line rendering of a record in the list box.
 */
module Contacts {

  datatype Option<+T> = None | Some(value: T)

  /** One record: the dictionary with the keys name, phone, email and address. */
  datatype Contact = Contact(name: string, phone: string, email: string, address: string)

  /** The four text inputs of the form, as read when a button is pressed. */
  datatype Form = Form(name: string, phone: string, email: string, address: string)

  /** Why an action was refused; each one is an error dialog of the application. */
  datatype Failure = RequiredFieldsMissing | SearchTermMissing | NoContactToUpdate | NoContactToDelete

  datatype Outcome = Success | Error(reason: Failure)

  /** The text of the error dialog shown for each refusal. */
  function ErrorText(f: Failure): string
  {
    match f
    case RequiredFieldsMissing => "Name and Phone are required fields."
    case SearchTermMissing => "Please enter a name or phone number to search."
    case NoContactToUpdate => "Please select a contact to update."
    case NoContactToDelete => "Please select a contact to delete."
  }

  /** Python's `a or b` on two strings: `a` unless it is empty, then `b`. */
  function Or(a: string, b: string): string
  {
    if a != "" then a else b
  }

  /** Both required fields are present. Only emptiness is tested, so blanks pass. */
  predicate HasRequired(c: Contact)
  {
    c.name != "" && c.phone != ""
  }

  predicate AllHaveRequired(cs: seq<Contact>)
  {
    forall k :: 0 <= k < |cs| ==> HasRequired(cs[k])
  }

  /** The record an add builds from the form: the four inputs taken verbatim. */
  function FromForm(f: Form): Contact
  {
    Contact(f.name, f.phone, f.email, f.address)
  }

  // ---------------------------------------------------------------------------
  // Search

  /** The search term: the name input, or the phone input when the name is empty. */
  function SearchTerm(f: Form): (r: Option<string>)
    ensures r.None? <==> f.name == "" && f.phone == ""
    ensures r.Some? ==> r.value != ""
    ensures f.name != "" ==> r == Some(f.name)
    ensures f.name == "" && f.phone != "" ==> r == Some(f.phone)
  {
    var term := Or(f.name, f.phone);
    if term == "" then None else Some(term)
  }

  /** A record is found when the term equals its name or its phone exactly. */
  predicate Matches(c: Contact, term: string)
  {
    term == c.name || term == c.phone
  }

  /** The records that match `term`, in the order they have in `cs`. */
  function Filter(cs: seq<Contact>, term: string): (r: seq<Contact>)
    ensures |r| <= |cs|
    ensures forall k :: 0 <= k < |r| ==> Matches(r[k], term) && r[k] in cs
    decreases |cs|
  {
    if cs == [] then []
    else
      var n := |cs| - 1;
      var found := Filter(cs[..n], term);
      assert forall c :: c in cs[..n] ==> c in cs;
      if Matches(cs[n], term) then found + [cs[n]] else found
  }

  /**
   * The position in `cs` of each record that Filter returns, strictly
   * increasing: the search result is an order-preserving subsequence.
   */
  function MatchPositions(cs: seq<Contact>, term: string): (p: seq<nat>)
    ensures |p| == |Filter(cs, term)|
    ensures forall k :: 0 <= k < |p| ==> p[k] < |cs| && cs[p[k]] == Filter(cs, term)[k]
    ensures forall k, l :: 0 <= k < l < |p| ==> p[k] < p[l]
    decreases |cs|
  {
    if cs == [] then []
    else
      var n := |cs| - 1;
      var found := MatchPositions(cs[..n], term);
      assert forall k :: 0 <= k < |found| ==> found[k] < n && cs[found[k]] == cs[..n][found[k]];
      if Matches(cs[n], term) then
        assert Filter(cs, term) == Filter(cs[..n], term) + [cs[n]];
        found + [n]
      else
        assert Filter(cs, term) == Filter(cs[..n], term);
        found
  }

  /** Every matching position is listed, so the search drops no match. */
  lemma {:induction false} MatchPositionsComplete(cs: seq<Contact>, term: string, j: nat)
    requires j < |cs| && Matches(cs[j], term)
    ensures j in MatchPositions(cs, term)
    decreases |cs|
  {
    var n := |cs| - 1;
    if j < n {
      MatchPositionsComplete(cs[..n], term, j);
    }
  }

  /** Each record occurs in the result exactly as often as in `cs` if it matches, else never. */
  lemma {:induction false} FilterCounts(cs: seq<Contact>, term: string, c: Contact)
    ensures multiset(Filter(cs, term))[c] == if Matches(c, term) then multiset(cs)[c] else 0
    decreases |cs|
  {
    if cs != [] {
      var n := |cs| - 1;
      FilterCounts(cs[..n], term, c);
      assert cs == cs[..n] + [cs[n]];
    }
  }

  /** Filtering a concatenation filters each part: the filter keeps relative order. */
  lemma {:induction false} FilterAppend(a: seq<Contact>, b: seq<Contact>, term: string)
    ensures Filter(a + b, term) == Filter(a, term) + Filter(b, term)
    decreases |b|
  {
    if b == [] {
      assert a + b == a;
    } else {
      var n := |b| - 1;
      var ab := a + b;
      assert ab[..|ab| - 1] == a + b[..n];
      assert ab[|ab| - 1] == b[n];
      FilterAppend(a, b[..n], term);
      if Matches(b[n], term) {
        calc {
          Filter(ab, term);
          Filter(a + b[..n], term) + [b[n]];
          Filter(a, term) + Filter(b[..n], term) + [b[n]];
          Filter(a, term) + Filter(b, term);
        }
      } else {
        calc {
          Filter(ab, term);
          Filter(a + b[..n], term);
          Filter(a, term) + Filter(b, term);
        }
      }
    }
  }

  /** With no matching record the search shows nothing. */
  lemma FilterNone(cs: seq<Contact>, term: string)
    requires forall k :: 0 <= k < |cs| ==> !Matches(cs[k], term)
    ensures Filter(cs, term) == []
  {
  }

  /** When every record matches, the search returns the whole list unchanged. */
  lemma {:induction false} FilterAll(cs: seq<Contact>, term: string)
    requires forall k :: 0 <= k < |cs| ==> Matches(cs[k], term)
    ensures Filter(cs, term) == cs
    decreases |cs|
  {
    if cs != [] {
      var n := |cs| - 1;
      FilterAll(cs[..n], term);
      assert cs == cs[..n] + [cs[n]];
    }
  }

  /** A term matched by exactly one record yields that record alone. */
  lemma SingleMatch(cs: seq<Contact>, term: string, j: nat)
    requires j < |cs| && Matches(cs[j], term)
    requires forall k :: 0 <= k < |cs| && k != j ==> !Matches(cs[k], term)
    ensures Filter(cs, term) == [cs[j]]
  {
    var before, after := cs[..j], cs[j + 1..];
    assert cs == before + [cs[j]] + after;
    FilterAppend(before + [cs[j]], after, term);
    FilterAppend(before, [cs[j]], term);
    FilterNone(before, term);
    FilterNone(after, term);
    assert [cs[j]][..0] == [];
  }

  // ---------------------------------------------------------------------------
  // Display

  /** The list-box row of one record: name, " - ", phone. */
  function Line(c: Contact): string
  {
    c.name + " - " + c.phone
  }

  /** The rows shown for `cs`: one per record, in order. */
  function Render(cs: seq<Contact>): (r: seq<string>)
    ensures |r| == |cs|
    ensures forall k :: 0 <= k < |cs| ==> r[k] == Line(cs[k])
    decreases |cs|
  {
    if cs == [] then [] else Render(cs[..|cs| - 1]) + [Line(cs[|cs| - 1])]
  }

  // ---------------------------------------------------------------------------
  // Update and delete

  /**
   * The record after an update: each non-empty input replaces its field,
   * each empty input keeps the old value, so no field can be blanked.
   */
  function Merge(c: Contact, f: Form): (r: Contact)
    ensures f.name != "" ==> r.name == f.name
    ensures f.phone != "" ==> r.phone == f.phone
    ensures f.email != "" ==> r.email == f.email
    ensures f.address != "" ==> r.address == f.address
    ensures f.name == "" ==> r.name == c.name
    ensures f.phone == "" ==> r.phone == c.phone
    ensures f.email == "" ==> r.email == c.email
    ensures f.address == "" ==> r.address == c.address
    ensures HasRequired(c) ==> HasRequired(r)
  {
    Contact(Or(f.name, c.name), Or(f.phone, c.phone), Or(f.email, c.email), Or(f.address, c.address))
  }

  /** An update with all four inputs empty leaves the record as it was. */
  lemma MergeEmptyForm(c: Contact)
    ensures Merge(c, Form("", "", "", "")) == c
  {
  }

  /** Pressing update twice with the same inputs has the effect of pressing it once. */
  lemma MergeIdempotent(c: Contact, f: Form)
    ensures Merge(Merge(c, f), f) == Merge(c, f)
  {
  }

  /** The list without the record at `i`; the others keep their values and order. */
  function RemoveAt(cs: seq<Contact>, i: nat): (r: seq<Contact>)
    requires i < |cs|
    ensures |r| == |cs| - 1
    ensures forall k :: 0 <= k < i ==> r[k] == cs[k]
    ensures forall k :: i <= k < |r| ==> r[k] == cs[k + 1]
    ensures multiset(r) + multiset{cs[i]} == multiset(cs)
  {
    assert cs == cs[..i] + [cs[i]] + cs[i + 1..];
    cs[..i] + cs[i + 1..]
  }
}
