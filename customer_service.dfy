/** The business rules on top of the store: not-found on a missing id, unique
    email on registration, and the field-by-field update. Exceptions become
    `Result` and `Outcome` values. */
module Service {
  import opened Domain
  import opened CustomerList
  import opened UpdateRules
  import opened ListStore

  class CustomerService {
    const dao: CustomerListDataAccessService

    constructor (dao: CustomerListDataAccessService)
      ensures this.dao == dao
    {
      this.dao := dao;
    }

    /** Everything the store holds, in its order. */
    method GetAllCustomers() returns (all: seq<Customer>)
      ensures all == dao.customers
    {
      all := dao.SelectAllCustomers();
    }

    /** The store's first customer with the id, or NotFound. */
    method GetCustomer(id: int) returns (r: Result<Customer>)
      ensures r.Failure? ==> r.error == NotFound
      ensures r.Failure? <==> !AnyWithId(dao.customers, id)
      ensures r.Success? ==> Some(r.value) == dao.SelectCustomerById(id)
    {
      var found := dao.SelectCustomerById(id);
      match found
      case None => r := Failure(NotFound);
      case Some(c) => r := Success(c);
    }

    /** Registration: refused with Duplicate, the store untouched, when the email is
        stored already; otherwise one new customer carrying the request's fields is
        appended. Its id is `newId`, whatever the Customer constructor gives a new
        record (that constructor is not part of this model). */
    method AddCustomer(request: RegistrationRequest, newId: int) returns (o: Outcome)
      modifies dao
      ensures o == Fail(Duplicate) <==> AnyWithEmail(old(dao.customers), Some(request.email))
      ensures o.Fail? ==> o == Fail(Duplicate) && dao.customers == old(dao.customers)
      ensures o == Pass ==>
        dao.customers == old(dao.customers) + [Customer(newId, request.name, request.email, request.age)]
    {
      if dao.ExistsCustomerWithEmail(Some(request.email)) {
        return Fail(Duplicate);
      }
      dao.InsertCustomer(Customer(newId, request.name, request.email, request.age));
      o := Pass;
    }

    /** Refused with NotFound, the store untouched, when no customer has the id;
        otherwise the first one with it is taken out of the list. */
    method DeleteCustomerById(id: int) returns (o: Outcome)
      modifies dao
      ensures o == Fail(NotFound) <==> !AnyWithId(old(dao.customers), id)
      ensures o.Fail? ==> o == Fail(NotFound) && dao.customers == old(dao.customers)
      ensures o == Pass ==> dao.customers == DeleteFirstWithId(old(dao.customers), id)
    {
      if !dao.ExistsCustomerWithId(id) {
        return Fail(NotFound);
      }
      dao.DeleteCustomerById(id);
      o := Pass;
    }

    /** The partial update. getCustomer hands back the object the list holds, so
        the three setters change the stored record before anything is checked, and
        that change stays whatever the outcome. Then NoChange when no field
        qualified, Duplicate when the request's email is now stored anywhere (the
        updated record included), and otherwise the store's updateCustomer. */
    method UpdateCustomer(customerId: int, request: UpdateRequest) returns (o: Outcome)
      modifies dao
      ensures match FirstIndexOfId(old(dao.customers), customerId)
        case None => o == Fail(NotFound) && dao.customers == old(dao.customers)
        case Some(k) =>
          && dao.customers == old(dao.customers)[k := Apply(old(dao.customers)[k], request)]
          && o == Verdict(old(dao.customers), k, request)
    {
      var found := GetCustomer(customerId);
      if found.Failure? {
        return Fail(found.error);
      }
      var customer := found.value;
      // The object getCustomer returned is the list entry at position `at`: each
      // setter on it is a write to that entry.
      var at := FirstIndexOfId(dao.customers, customerId).value;
      ghost var before := dao.customers;
      assert before == old(dao.customers) && FirstIndexOfId(before, customerId) == Some(at);
      assert customer == before[at];
      var changes := false;

      if TextQualifies(request.name, customer.name) {
        customer := customer.(name := request.name.value);
        dao.customers := dao.customers[at := customer];
        changes := true;
      }
      assert customer == before[at].(name := Apply(before[at], request).name);
      if TextQualifies(request.email, customer.email) {
        customer := customer.(email := request.email.value);
        dao.customers := dao.customers[at := customer];
        changes := true;
      }
      assert customer == Apply(before[at], request).(age := before[at].age);
      if AgeQualifies(request.age, customer.age) {
        customer := customer.(age := request.age.value);
        dao.customers := dao.customers[at := customer];
        changes := true;
      }
      assert customer == Apply(before[at], request) && dao.customers == before[at := customer];
      assert changes == AnyQualifies(before[at], request);

      if !changes {
        o := Fail(NoChange);
      } else if dao.ExistsCustomerWithEmail(request.email) {
        o := Fail(Duplicate);
      } else {
        SameIdsSameFirstIndex(before, dao.customers, customerId);
        ReplaceWithFoundIsNoOp(dao.customers, customerId, at);
        dao.UpdateCustomer(customer);
        o := Pass;
      }
      assert o == Verdict(before, at, request);
    }
  }

  /** The seeded store has no shared email. */
  lemma SeedEmailsUnique()
    ensures EmailsUnique(Seed)
  {
  }

  /** A refused update still writes through: asking to give Alex the email Jamila
      has is reported as Duplicate, and both stored customers then carry that
      email, so the uniqueness that registration keeps is lost. */
  lemma RefusedUpdateSharesEmail()
    ensures var r := UpdateRequest(None, Some("jamila@gmail.com"), None);
      && FirstIndexOfId(Seed, 1) == Some(0)
      && Verdict(Seed, 0, r) == Fail(Duplicate)
      && !EmailsUnique(Seed[0 := Apply(Seed[0], r)])
  {
    var r := UpdateRequest(None, Some("jamila@gmail.com"), None);
    assert !IsBlank("jamila@gmail.com") by { assert !IsWhitespace("jamila@gmail.com"[0]); }
    assert "jamila@gmail.com" != Seed[0].email by {
      assert "jamila@gmail.com"[0] != Seed[0].email[0];
    }
    var after := Seed[0 := Apply(Seed[0], r)];
    assert after[0].email == after[1].email;
    VerdictCases(Seed, 0, r);
  }

  /** Registration on the seeded store: a new email is appended, a stored one
      is refused. */
  method RegistrationScenario()
  {
    var store := new CustomerListDataAccessService();
    var service := new CustomerService(store);

    var bob := RegistrationRequest("Bob", "bob@gmail.com", 30);
    assert !AnyWithEmail(Seed, Some(bob.email)) by {
      assert bob.email[0] != Seed[0].email[0] && bob.email[0] != Seed[1].email[0];
    }
    var added := service.AddCustomer(bob, 3);
    assert added == Pass;
    var all := service.GetAllCustomers();
    assert all == Seed + [Customer(3, "Bob", "bob@gmail.com", 30)];

    assert all[0].email == "alex@gmail.com";
    var refused := service.AddCustomer(RegistrationRequest("Eve", "alex@gmail.com", 22), 4);
    assert refused == Fail(Duplicate);
    assert store.customers == all;
  }

  /** Updates on the seeded store: a rename succeeds; taking Jamila's email is
      refused but stays written. */
  method UpdateScenario()
  {
    var store := new CustomerListDataAccessService();
    var service := new CustomerService(store);

    assert !IsBlank("Alexander") by { assert !IsWhitespace("Alexander"[0]); }
    RenameOnlySucceeds(Seed, 0, "Alexander");
    var renamed := service.UpdateCustomer(1, UpdateRequest(Some("Alexander"), None, None));
    assert renamed == Pass;
    assert store.customers == [Customer(1, "Alexander", "alex@gmail.com", 21), Seed[1]];

    var before := store.customers;
    var r := UpdateRequest(None, Some("jamila@gmail.com"), None);
    assert !IsBlank("jamila@gmail.com") by { assert !IsWhitespace("jamila@gmail.com"[0]); }
    assert "jamila@gmail.com" != before[0].email by {
      assert "jamila@gmail.com"[0] != before[0].email[0];
    }
    VerdictCases(before, 0, r);
    var taken := service.UpdateCustomer(1, r);
    assert taken == Fail(Duplicate);
    assert store.customers[0].email == store.customers[1].email;
  }

  /** Deleting on the seeded store: Jamila goes, and a second delete or a lookup
      of her id is NotFound. */
  method DeleteScenario()
  {
    var store := new CustomerListDataAccessService();
    var service := new CustomerService(store);

    var deleted := service.DeleteCustomerById(2);
    assert deleted == Pass;
    assert store.customers == [Seed[0]];
    var gone := service.GetCustomer(2);
    assert gone == Failure(NotFound);
    var again := service.DeleteCustomerById(2);
    assert again == Fail(NotFound);
  }
}
