# Customer service: in-memory store and business rules

A model of the customer back end of a Spring Boot application. The model covers two classes:

- `CustomerListDataAccessService` is a store that keeps customers in a list. The list is seeded with Alex (id 1) and Jamila (id 2).
- `CustomerService` puts the business rules on top of the store:
  - a lookup of a missing id fails with NotFound;
  - a registration whose email is already stored fails with Duplicate;
  - a delete of a missing id fails with NotFound;
  - a partial update applies each requested field that is present, not blank and different. It then reports NoChange, Duplicate or success.

The model has five modules:

- `Domain` holds the customer record, the two request bodies and the three error kinds. An exception becomes a `Failure`/`Fail` value.
- `CustomerList` holds the store's linear scans as recursive functions over `seq<Customer>`:
  - first position with an id,
  - any record with an id,
  - any record with an email,
  - first value-equal element, which is where `List.remove` removes.
  
  It also holds the records that remain after a delete or a replace, and their lemmas.
- `UpdateRules` holds Java's `Character.isWhitespace` and `String.isBlank`, the rule for when a field qualifies, the record after the setters (`Apply`) and the reported outcome (`Verdict`).
- `ListStore` is the store as a class, with the list as a mutable `seq` field.
- `Service` is the service as a class over a store. It also holds lemmas and three worked scenarios on the seeded store.

Aliasing. `getCustomer` returns the object the list itself holds. `updateCustomer` then calls each setter on that object as soon as its field qualifies (CustomerService.java:60-73), before the NoChange and Duplicate checks at :75-77. So every qualifying field is written into the store at once, whatever the outcome. The model writes each setter through to the list entry. Two consequences follow, both proved:

- The duplicate check looks at the store after the setters and includes the record being updated. So an update that changes the email always fails as Duplicate (`UpdateRules.VerdictCases`). Resending a customer's own email together with another change also fails as Duplicate (`UpdateRules.OwnEmailIsDuplicate`).
- A refused update keeps what it wrote. Asking to give Alex Jamila's email is reported as Duplicate, and afterwards both customers carry that email. Email uniqueness is then lost (`Service.RefusedUpdateSharesEmail`, `Service.UpdateScenario`). Registration, delete, NoChange and a successful update all keep emails unique (`CustomerList.AppendFreshEmailKeepsUnique`, `CustomerList.DeleteKeepsUniqueEmails`, `UpdateRules.KeptEmailKeepsUniqueEmails`).

Two further facts of the code as written, both kept by the model:

- `insertCustomer` assigns no id. It appends the customer exactly as given (CustomerListDataAccessService.java:45-47).
- The duplicate check in `updateCustomer` runs against the whole store, the updated record included. So it also matches the target's own, freshly written email (CustomerService.java:77).

## Model

| member | source | states |
|---|---|---|
| CustomerList.FirstIndexOfId | src/main/java/com/cicek/customer/CustomerListDataAccessService.java:38-41 | the result is the first position whose id matches; None exactly when no record has the id |
| CustomerList.AnyWithId | src/main/java/com/cicek/customer/CustomerListDataAccessService.java:55-57 | true exactly when some record has the id |
| CustomerList.AnyWithEmail | src/main/java/com/cicek/customer/CustomerListDataAccessService.java:50-52 | true exactly when the email is non-null and some record has exactly that email |
| CustomerList.IndexOf | src/main/java/com/cicek/customer/CustomerListDataAccessService.java:64 | `List.remove(Object)` removes at the first equal element's position; None exactly when nothing is equal |
| CustomerList.SameIdsSameFirstIndex | src/main/java/com/cicek/customer/CustomerListDataAccessService.java:38-41 | the lookup by id depends on the ids alone, so setters on other fields do not move it |
| CustomerList.ExistsIdIffFound | src/main/java/com/cicek/customer/CustomerListDataAccessService.java:37-57 | `existsCustomerWithId` holds exactly when `selectCustomerById` finds a record |
| CustomerList.RemovedIsFound | src/main/java/com/cicek/customer/CustomerListDataAccessService.java:60-65 | the element `remove` takes out is the one the id lookup found, not an earlier equal one |
| CustomerList.DeleteAbsentIsNoOp | src/main/java/com/cicek/customer/CustomerListDataAccessService.java:60-65 | deleting an id no record has leaves the list as it was |
| CustomerList.DeleteRemovesFirstMatch | src/main/java/com/cicek/customer/CustomerListDataAccessService.java:60-65 | a delete of a present id removes exactly the first match: one shorter, others in order, multiset minus that record |
| CustomerList.DeleteKeepsOtherIds | src/main/java/com/cicek/customer/CustomerListDataAccessService.java:60-65 | every other id is present after the delete exactly when it was before |
| CustomerList.DeleteUniqueIdIsGone | src/main/java/com/cicek/customer/CustomerListDataAccessService.java:60-65 | when at most one record has the id, none has it after the delete |
| CustomerList.AppendFreshEmailKeepsUnique | src/main/java/com/cicek/customer/CustomerService.java:33-45 | registering an email nobody has keeps emails unique |
| CustomerList.DeleteKeepsUniqueEmails | src/main/java/com/cicek/customer/CustomerListDataAccessService.java:60-65 | a delete keeps emails unique |
| CustomerList.FirstIndexAfterAppend | src/main/java/com/cicek/customer/CustomerListDataAccessService.java:45-47 | appending leaves earlier id lookups unchanged; a new id is found at the last position |
| CustomerList.EmailsAfterAppend | src/main/java/com/cicek/customer/CustomerListDataAccessService.java:45-47 | after an append, an email is stored exactly when it was before or is the new record's |
| CustomerList.DeleteFirstWithId | src/main/java/com/cicek/customer/CustomerListDataAccessService.java:60-65 | the records left by a delete: one fewer exactly when some record has the id, and no record that was not there before; first match and order in DeleteRemovesFirstMatch |
| CustomerList.ReplaceFirstWithId | src/main/java/com/cicek/customer/CustomerService.java:82 | the records left by the store's unseen `updateCustomer`: same length; the first record with the customer's id is replaced by the customer and every other position keeps its record; the list is unchanged when no record has that id |
| CustomerList.EmailsUnique | src/main/java/com/cicek/customer/CustomerService.java:33-37 | no two stored records share an email, the property the registration check keeps; preservation in AppendFreshEmailKeepsUnique, DeleteKeepsUniqueEmails and KeptEmailKeepsUniqueEmails, loss in RefusedUpdateSharesEmail |
| CustomerList.ReplaceWithFoundIsNoOp | src/main/java/com/cicek/customer/CustomerService.java:82 | persisting the record the lookup by its id returns changes nothing |
| UpdateRules.IsWhitespace | src/main/java/com/cicek/customer/CustomerService.java:60-65 | Java's `Character.isWhitespace`: the Unicode space, line and paragraph separators except the three no-break spaces, and the controls U+0009 to U+000D and U+001C to U+001F |
| UpdateRules.IsBlank | src/main/java/com/cicek/customer/CustomerService.java:60-65 | `String.isBlank`: every character is whitespace, so the empty string is blank; used through BlankNeverQualifies |
| UpdateRules.TextQualifies | src/main/java/com/cicek/customer/CustomerService.java:60-65 | the condition on a requested name or email: present, not blank, different from the current value; its effect in FieldsChangeOnlyWhenQualified |
| UpdateRules.AgeQualifies | src/main/java/com/cicek/customer/CustomerService.java:70 | the condition on a requested age: present and different from the current one; its effect in FieldsChangeOnlyWhenQualified |
| UpdateRules.AnyQualifies | src/main/java/com/cicek/customer/CustomerService.java:58-73 | the `changes` flag after the three field checks: some field qualifies; its meaning in ChangesIffRecordDiffers |
| UpdateRules.Apply | src/main/java/com/cicek/customer/CustomerService.java:60-73 | the record after the three setters; it keeps the id; its fields are characterised by FieldsChangeOnlyWhenQualified and ChangesIffRecordDiffers |
| UpdateRules.Verdict | src/main/java/com/cicek/customer/CustomerService.java:75-83 | the reported outcome, with the duplicate check run on the written-through store; characterised against the old store by VerdictCases |
| UpdateRules.BlankNeverQualifies | src/main/java/com/cicek/customer/CustomerService.java:60-65 | a blank name or email, "" included, is never applied |
| UpdateRules.ChangesIffRecordDiffers | src/main/java/com/cicek/customer/CustomerService.java:58-73 | the `changes` flag is set exactly when the record differs afterwards; the id is never changed |
| UpdateRules.FieldsChangeOnlyWhenQualified | src/main/java/com/cicek/customer/CustomerService.java:60-73 | each field changes only when it qualifies, and then to the requested value; otherwise it keeps its value |
| UpdateRules.RepeatedRequestIsNoChange | src/main/java/com/cicek/customer/CustomerService.java:58-76 | applying a request twice is applying it once; the repeat is refused with NoChange |
| UpdateRules.DuplicateCheckAfterSetters | src/main/java/com/cicek/customer/CustomerService.java:65-77 | on the written-through store the duplicate check fires exactly when the email itself changed or some record already had it |
| UpdateRules.VerdictCases | src/main/java/com/cicek/customer/CustomerService.java:58-83 | NoChange exactly when nothing qualifies; Duplicate exactly when something qualifies and the email changes or is stored; success exactly otherwise |
| UpdateRules.OwnEmailIsDuplicate | src/main/java/com/cicek/customer/CustomerService.java:77-80 | resending the customer's own email with some other change is refused as Duplicate |
| UpdateRules.PassKeepsEmails | src/main/java/com/cicek/customer/CustomerService.java:77-83 | a successful update leaves the email unchanged, and the requested email is stored nowhere |
| UpdateRules.KeptEmailKeepsUniqueEmails | src/main/java/com/cicek/customer/CustomerService.java:55-84 | an update that does not write the email keeps emails unique |
| UpdateRules.RenameOnlySucceeds | src/main/java/com/cicek/customer/CustomerService.java:60-83 | a request with only a new non-blank name succeeds and changes only the name |
| ListStore.Seed | src/main/java/com/cicek/customer/CustomerListDataAccessService.java:14-31 | the two seeded records: Alex (1, alex@gmail.com, 21) then Jamila (2, jamila@gmail.com, 21); their emails differ by SeedEmailsUnique |
| ListStore.CustomerListDataAccessService.constructor | src/main/java/com/cicek/customer/CustomerListDataAccessService.java:14-31 | the store starts as Alex (1, alex@gmail.com, 21) followed by Jamila (2, jamila@gmail.com, 21) |
| ListStore.CustomerListDataAccessService.SelectAllCustomers | src/main/java/com/cicek/customer/CustomerListDataAccessService.java:32-35 | the whole list, in order |
| ListStore.CustomerListDataAccessService.SelectCustomerById | src/main/java/com/cicek/customer/CustomerListDataAccessService.java:37-42 | a record with the id that no earlier record shares; empty exactly when no record has the id |
| ListStore.CustomerListDataAccessService.InsertCustomer | src/main/java/com/cicek/customer/CustomerListDataAccessService.java:44-47 | the customer is appended at the end, unchanged |
| ListStore.CustomerListDataAccessService.ExistsCustomerWithEmail | src/main/java/com/cicek/customer/CustomerListDataAccessService.java:49-52 | true exactly when a non-null email equals some stored email |
| ListStore.CustomerListDataAccessService.ExistsCustomerWithId | src/main/java/com/cicek/customer/CustomerListDataAccessService.java:54-57 | true exactly when some record has the id, and exactly when the lookup by id finds one |
| ListStore.CustomerListDataAccessService.DeleteCustomerById | src/main/java/com/cicek/customer/CustomerListDataAccessService.java:59-65 | the list becomes the old list without its first record with the id |
| ListStore.CustomerListDataAccessService.UpdateCustomer | src/main/java/com/cicek/customer/CustomerService.java:82 | the customer replaces the first record with its id; the list is unchanged when none has it |
| Service.CustomerService.constructor | src/main/java/com/cicek/customer/CustomerService.java:16-18 | the service works on the given store |
| Service.CustomerService.GetAllCustomers | src/main/java/com/cicek/customer/CustomerService.java:20-22 | the store's whole list |
| Service.CustomerService.GetCustomer | src/main/java/com/cicek/customer/CustomerService.java:24-28 | the store's lookup result; NotFound exactly when no record has the id |
| Service.CustomerService.AddCustomer | src/main/java/com/cicek/customer/CustomerService.java:30-46 | Duplicate exactly when the email is stored, and then the store is untouched; otherwise one record with the request's fields is appended |
| Service.CustomerService.DeleteCustomerById | src/main/java/com/cicek/customer/CustomerService.java:48-53 | NotFound exactly when the id is absent, and then the store is untouched; otherwise the first record with the id is removed |
| Service.CustomerService.UpdateCustomer | src/main/java/com/cicek/customer/CustomerService.java:55-84 | NotFound with the store untouched when the id is absent; otherwise the stored record becomes `Apply` of it (written through, whatever the outcome) and the outcome is `Verdict` of the old store |
| Service.SeedEmailsUnique | src/main/java/com/cicek/customer/CustomerListDataAccessService.java:14-31 | the seeded customers have distinct emails |
| Service.RefusedUpdateSharesEmail | src/main/java/com/cicek/customer/CustomerService.java:57-80 | giving Alex Jamila's email is refused as Duplicate yet leaves two records with that email |

## Left out

- `CustomerController.java` is not part of this model. It maps HTTP requests to these calls.
- The JPA store is not part of this model. The service is modelled over the list store only, although its constructor asks for the "jpa" one.
- Spring wiring, annotations, exception messages and HTTP status codes are left out.
- The list is a static field that every instance shares. The model gives each store instance its own list. Concurrent access is not modelled.
- `updateCustomer` on the store is not defined in the list store's source. It is modelled as putting the customer in place of the first record that has its id.
- `selectAllCustomers` returns the live list, and so does `getAllCustomers` through it (CustomerListDataAccessService.java:33-35). A caller could change the store through that list. The model returns the list's current value, a copy, so changes made through the returned list are not captured.
- Aliasing is modelled as a write-through to the entry at the found position. This assumes no Customer object appears in the list twice.
- `Customer.equals` is not part of this model. It is taken to compare the four fields, so `List.remove` removes the first value-equal record.
- Service.CustomerService.AddCustomer: the three-argument `Customer` constructor is not part of this model, so the new record's id is a parameter, `newId`. If that constructor leaves the id null, later id scans would throw; that is not captured.
- Null fields in a registration request or in a stored record, and the exceptions they would cause, are not modelled. Update requests do model a null field, as `None`.
- Strings are sequences of Unicode scalar values. Java strings are UTF-16, so a request string with an unpaired surrogate cannot be represented, although `equals` and `isBlank` accept one.
- Ids and ages are Java `Integer`s. Nothing computes with them, so the model uses unbounded `int` and ignores their width.
