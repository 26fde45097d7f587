/** The rules `updateCustomer` applies: when a requested field value counts as a
    change, the record that results, and which outcome the service reports. */
module UpdateRules {
  import opened Domain
  import opened CustomerList

  /** Java's `Character.isWhitespace`: the Unicode space, line and paragraph
      separators except the three no-break spaces (U+00A0, U+2007, U+202F), plus
      the controls U+0009 to U+000D and U+001C to U+001F. */
  predicate IsWhitespace(c: char)
  {
    || ('\U{0009}' <= c <= '\U{000D}')
    || ('\U{001C}' <= c <= '\U{0020}')
    || c == '\U{1680}'
    || ('\U{2000}' <= c <= '\U{2006}')
    || ('\U{2008}' <= c <= '\U{200A}')
    || c == '\U{2028}' || c == '\U{2029}' || c == '\U{205F}' || c == '\U{3000}'
  }

  /** Java's `String.isBlank`: every character is whitespace (so "" is blank). */
  predicate IsBlank(s: string)
  {
    forall i :: 0 <= i < |s| ==> IsWhitespace(s[i])
  }

  /** A requested name or email is applied when it is present, not blank, and
      different from the current value. */
  predicate TextQualifies(requested: Option<string>, current: string)
  {
    requested.Some? && !IsBlank(requested.value) && requested.value != current
  }

  /** A requested age is applied when it is present and different from the current one. */
  predicate AgeQualifies(requested: Option<int>, current: int)
  {
    requested.Some? && requested.value != current
  }

  /** The `changes` flag after the three field checks. */
  predicate AnyQualifies(c: Customer, r: UpdateRequest)
  {
    TextQualifies(r.name, c.name) || TextQualifies(r.email, c.email) || AgeQualifies(r.age, c.age)
  }

  /** The customer after the three setters have run. */
  function Apply(c: Customer, r: UpdateRequest): (u: Customer)
    ensures u.id == c.id
  {
    Customer(
      c.id,
      if TextQualifies(r.name, c.name) then r.name.value else c.name,
      if TextQualifies(r.email, c.email) then r.email.value else c.email,
      if AgeQualifies(r.age, c.age) then r.age.value else c.age)
  }

  /** What `updateCustomer` reports once the record at position `k` of the store
      `rows` was found. The duplicate check reads the store AFTER the setters have
      written to that record, and tests the request's email against every record,
      the updated one included. */
  function Verdict(rows: seq<Customer>, k: nat, r: UpdateRequest): Outcome
    requires k < |rows|
  {
    if !AnyQualifies(rows[k], r) then Fail(NoChange)
    else if AnyWithEmail(rows[k := Apply(rows[k], r)], r.email) then Fail(Duplicate)
    else Pass
  }

  /** A blank value (the empty string included) is never applied. */
  lemma BlankNeverQualifies(v: string, current: string)
    requires IsBlank(v)
    ensures !TextQualifies(Some(v), current)
  {
  }

  /** The `changes` flag is set exactly when the record's value differs afterwards,
      and the id is never touched. */
  lemma ChangesIffRecordDiffers(c: Customer, r: UpdateRequest)
    ensures Apply(c, r).id == c.id
    ensures AnyQualifies(c, r) <==> Apply(c, r) != c
  {
  }

  /** A field only changes when it qualifies, and then to the requested value;
      every other field keeps its old value. */
  lemma FieldsChangeOnlyWhenQualified(c: Customer, r: UpdateRequest)
    ensures Apply(c, r).name != c.name ==> TextQualifies(r.name, c.name) && Apply(c, r).name == r.name.value
    ensures Apply(c, r).email != c.email ==> TextQualifies(r.email, c.email) && Apply(c, r).email == r.email.value
    ensures Apply(c, r).age != c.age ==> AgeQualifies(r.age, c.age) && Apply(c, r).age == r.age.value
    ensures !TextQualifies(r.name, c.name) ==> Apply(c, r).name == c.name
    ensures !TextQualifies(r.email, c.email) ==> Apply(c, r).email == c.email
    ensures !AgeQualifies(r.age, c.age) ==> Apply(c, r).age == c.age
  {
  }

  /** Sending the same request again changes nothing more: it would be refused
      with NoChange. */
  lemma RepeatedRequestIsNoChange(c: Customer, r: UpdateRequest)
    ensures Apply(Apply(c, r), r) == Apply(c, r)
    ensures !AnyQualifies(Apply(c, r), r)
  {
  }

  /** The duplicate check on the written-through store, in terms of the store as it
      was: it fires when the email itself is being changed (the record now holds it)
      or when some record already held the requested email. */
  lemma DuplicateCheckAfterSetters(rows: seq<Customer>, k: nat, r: UpdateRequest)
    requires k < |rows|
    ensures AnyWithEmail(rows[k := Apply(rows[k], r)], r.email)
        <==> TextQualifies(r.email, rows[k].email) || AnyWithEmail(rows, r.email)
  {
    var after := rows[k := Apply(rows[k], r)];
    if TextQualifies(r.email, rows[k].email) {
      assert after[k].email == r.email.value;
    } else {
      assert forall j :: 0 <= j < |rows| ==> after[j].email == rows[j].email;
      if AnyWithEmail(rows, r.email) {
        var j :| 0 <= j < |rows| && rows[j].email == r.email.value;
        assert after[j].email == r.email.value;
      }
      if AnyWithEmail(after, r.email) {
        var j :| 0 <= j < |after| && after[j].email == r.email.value;
        assert rows[j].email == r.email.value;
      }
    }
  }

  /** The three outcomes, each stated against the store before the update:
      NoChange takes precedence; an update that changes the email is always refused
      as Duplicate; an update succeeds only when it changes something, leaves the
      email alone and no record holds the requested email. */
  lemma {:induction false} VerdictCases(rows: seq<Customer>, k: nat, r: UpdateRequest)
    requires k < |rows|
    ensures Verdict(rows, k, r) == Fail(NoChange) <==> !AnyQualifies(rows[k], r)
    ensures Verdict(rows, k, r) == Fail(Duplicate) <==>
      AnyQualifies(rows[k], r) && (TextQualifies(r.email, rows[k].email) || AnyWithEmail(rows, r.email))
    ensures Verdict(rows, k, r) == Pass <==>
      AnyQualifies(rows[k], r) && !TextQualifies(r.email, rows[k].email) && !AnyWithEmail(rows, r.email)
  {
    DuplicateCheckAfterSetters(rows, k, r);
  }

  /** Repeating the stored email in a request that changes something else is
      reported as Duplicate: the check does not exclude the customer being updated. */
  lemma OwnEmailIsDuplicate(rows: seq<Customer>, k: nat, r: UpdateRequest)
    requires k < |rows|
    requires r.email == Some(rows[k].email) && AnyQualifies(rows[k], r)
    ensures Verdict(rows, k, r) == Fail(Duplicate)
  {
    VerdictCases(rows, k, r);
  }

  /** A successful update leaves every email as it was and the request carries no
      email that is stored anywhere. */
  lemma PassKeepsEmails(rows: seq<Customer>, k: nat, r: UpdateRequest)
    requires k < |rows|
    requires Verdict(rows, k, r) == Pass
    ensures Apply(rows[k], r).email == rows[k].email
    ensures !AnyWithEmail(rows, r.email)
  {
    VerdictCases(rows, k, r);
  }

  /** An update that does not write the email keeps emails unique; this covers
      every NoChange and every successful update. */
  lemma KeptEmailKeepsUniqueEmails(rows: seq<Customer>, k: nat, r: UpdateRequest)
    requires k < |rows| && EmailsUnique(rows)
    requires !TextQualifies(r.email, rows[k].email)
    ensures EmailsUnique(rows[k := Apply(rows[k], r)])
  {
  }

  /** A request that only renames, with a new non-blank name, succeeds and leaves
      email and age unchanged. */
  lemma RenameOnlySucceeds(rows: seq<Customer>, k: nat, n: string)
    requires k < |rows|
    requires !IsBlank(n) && n != rows[k].name
    ensures Verdict(rows, k, UpdateRequest(Some(n), None, None)) == Pass
    ensures Apply(rows[k], UpdateRequest(Some(n), None, None)) == rows[k].(name := n)
  {
  }
}
