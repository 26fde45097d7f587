/** The in-memory customer store: a mutable list of customers, seeded with two.
    Queries scan the list in order; `insertCustomer` and `deleteCustomerById`
    change it in place. */
module ListStore {
  import opened Domain
  import opened CustomerList

  /** The records of the static initialiser: Alex then Jamila. */
  const Seed: seq<Customer> := [Customer(1, "Alex", "alex@gmail.com", 21),
                                Customer(2, "Jamila", "jamila@gmail.com", 21)]

  class CustomerListDataAccessService {
    var customers: seq<Customer>

    constructor ()
      ensures customers == Seed
    {
      customers := Seed;
    }

    /** The list itself, in insertion order. */
    function SelectAllCustomers(): (all: seq<Customer>)
      reads this
      ensures all == customers
    {
      customers
    }

    /** The first stored customer whose id is `id`, or None when no customer has it. */
    function SelectCustomerById(id: int): (r: Option<Customer>)
      reads this
      ensures r.Some? ==> r.value.id == id
      ensures r.Some? ==> exists k :: 0 <= k < |customers| && customers[k] == r.value &&
                                      (forall j :: 0 <= j < k ==> customers[j].id != id)
      ensures r.None? <==> forall k :: 0 <= k < |customers| ==> customers[k].id != id
    {
      match FirstIndexOfId(customers, id)
      case None => None
      case Some(k) => Some(customers[k])
    }

    /** Appends the customer as it is: no id is assigned and nothing is checked. */
    method InsertCustomer(customer: Customer)
      modifies this
      ensures customers == old(customers) + [customer]
    {
      customers := customers + [customer];
    }

    /** Whether some stored customer has exactly this email; never for a null email. */
    function ExistsCustomerWithEmail(email: Option<string>): (b: bool)
      reads this
      ensures b <==> email.Some? && exists k :: 0 <= k < |customers| && customers[k].email == email.value
    {
      AnyWithEmail(customers, email)
    }

    /** Whether some stored customer has this id; agrees with the lookup by id. */
    function ExistsCustomerWithId(id: int): (b: bool)
      reads this
      ensures b <==> exists k :: 0 <= k < |customers| && customers[k].id == id
      ensures b <==> SelectCustomerById(id).Some?
    {
      ExistsIdIffFound(customers, id);
      AnyWithId(customers, id)
    }

    /** Finds the first customer with the id and, if there is one, removes it with
        `List.remove`, which takes out the first element equal to it. Customer
        equality is taken to compare the four fields. */
    method DeleteCustomerById(id: int)
      modifies this
      ensures customers == DeleteFirstWithId(old(customers), id)
    {
      var found := SelectCustomerById(id);
      if found.Some? {
        RemovedIsFound(customers, id, FirstIndexOfId(customers, id).value);
        var at := IndexOf(customers, found.value).value;
        customers := customers[..at] + customers[at + 1..];
      }
    }

    /** `updateCustomer`, which the service calls but this store does not define:
        modelled as putting the customer in place of the first one with its id. */
    method UpdateCustomer(customer: Customer)
      modifies this
      ensures customers == ReplaceFirstWithId(old(customers), customer)
    {
      var k := FirstIndexOfId(customers, customer.id);
      if k.Some? {
        customers := customers[k.value := customer];
      }
    }
  }
}
