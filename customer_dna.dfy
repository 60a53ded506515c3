/**
 * The "Customer DNA" page of app.py: customers narrowed by segment and by the
 * mood of their purchases, once for the KPI cards and once more, from a fresh
 * copy, as the pool of the "Top Loyalists" table, of which the 15 customers
 * with the most purchases are shown.
 */
module CustomerDna {
  import opened Tables
  import opened Ranking

  const MaxLoyalists: nat := 15

  /**
   * `df_transactions[df_transactions['actual_purchased_mood'] == emotion]['customer_id'].unique()`,
   * as the set `isin` tests against.
   */
  function BuyersOf(ts: seq<Transaction>, emotion: string): (ids: set<string>)
    ensures forall id :: id in ids <==> exists t :: t in ts && t.actualPurchasedMood == emotion && t.customerId == id
  {
    set t | t in ts && t.actualPurchasedMood == emotion :: t.customerId
  }

  /**
   * A customer survives the page's filters: the segment when one is chosen,
   * and having bought the chosen emotion when one is chosen and the purchase
   * history is loaded (without it the emotion is ignored).
   */
  predicate CustomerSelected(transactions: Option<seq<Transaction>>, emotion: string, segment: string, c: Customer)
  {
    && (segment != All ==> c.segment == segment)
    && (emotion != All && transactions.Some? ==> c.customerId in BuyersOf(transactions.value, emotion))
  }

  function SelectedCustomers(customers: seq<Customer>, transactions: Option<seq<Transaction>>, emotion: string, segment: string): seq<Customer>
  {
    Filter(customers, (c: Customer) => CustomerSelected(transactions, emotion, segment, c))
  }

  /**
   * A customer is selected exactly when it is a listed customer of the chosen
   * segment that appears in a transaction of the chosen mood (each condition
   * only when it is switched on); the selection keeps the customers' order.
   */
  lemma SelectedCustomersExact(customers: seq<Customer>, transactions: Option<seq<Transaction>>, emotion: string, segment: string, c: Customer)
    ensures c in SelectedCustomers(customers, transactions, emotion, segment) <==>
      && c in customers
      && (segment != All ==> c.segment == segment)
      && (emotion != All && transactions.Some? ==>
            exists t :: t in transactions.value && t.actualPurchasedMood == emotion && t.customerId == c.customerId)
    ensures IsSubsequence(SelectedCustomers(customers, transactions, emotion, segment), customers)
  {
    FilterIsSubsequence(customers, (c: Customer) => CustomerSelected(transactions, emotion, segment, c));
  }

  /** `filtered_customers`, behind the KPI cards (app.py 316-327). */
  method KpiCustomers(customers: seq<Customer>, transactions: Option<seq<Transaction>>, emotion: string, segment: string)
    returns (filteredCustomers: seq<Customer>)
    ensures filteredCustomers == SelectedCustomers(customers, transactions, emotion, segment)
  {
    ghost var sofar: Customer -> bool := (c: Customer) => true;
    FilterKeepsAll(customers, sofar);
    filteredCustomers := customers;
    if segment != All {
      var keep := (c: Customer) => c.segment == segment;
      ghost var next := (c: Customer) => sofar(c) && keep(c);
      FilterThen(customers, sofar, keep, next);
      filteredCustomers := Filter(filteredCustomers, keep);
      sofar := next;
    }
    assert filteredCustomers == Filter(customers, sofar);

    var filteredTransactions := transactions;
    if emotion != All && filteredTransactions.Some? {
      var byEmotion := Filter(filteredTransactions.value, (t: Transaction) => t.actualPurchasedMood == emotion);
      var emotionCustomers := set t | t in byEmotion :: t.customerId;
      var keep := (c: Customer) => c.customerId in emotionCustomers;
      ghost var next := (c: Customer) => sofar(c) && keep(c);
      FilterThen(customers, sofar, keep, next);
      filteredCustomers := Filter(filteredCustomers, keep);
      sofar := next;
      assert emotionCustomers == BuyersOf(transactions.value, emotion);
    }
    assert filteredCustomers == Filter(customers, sofar);
    assert forall c :: sofar(c) == CustomerSelected(transactions, emotion, segment, c);
    FilterExt(customers, sofar, (c: Customer) => CustomerSelected(transactions, emotion, segment, c));
  }

  /**
   * `top_loyalists_data`, rebuilt from the full customer table (app.py 382-391).
   * It is the same selection as `KpiCustomers`, so the table and the KPI cards
   * describe the same customers.
   */
  method LoyalistPool(customers: seq<Customer>, transactions: Option<seq<Transaction>>, emotion: string, segment: string)
    returns (pool: seq<Customer>)
    ensures pool == SelectedCustomers(customers, transactions, emotion, segment)
  {
    ghost var sofar: Customer -> bool := (c: Customer) => true;
    FilterKeepsAll(customers, sofar);
    pool := customers;
    if segment != All {
      var keep := (c: Customer) => c.segment == segment;
      ghost var next := (c: Customer) => sofar(c) && keep(c);
      FilterThen(customers, sofar, keep, next);
      pool := Filter(pool, keep);
      sofar := next;
    }
    assert pool == Filter(customers, sofar);
    if emotion != All && transactions.Some? {
      var emotionCustomers := BuyersOf(transactions.value, emotion);
      var keep := (c: Customer) => c.customerId in emotionCustomers;
      ghost var next := (c: Customer) => sofar(c) && keep(c);
      FilterThen(customers, sofar, keep, next);
      pool := Filter(pool, keep);
      sofar := next;
    }
    assert pool == Filter(customers, sofar);
    assert forall c :: sofar(c) == CustomerSelected(transactions, emotion, segment, c);
    FilterExt(customers, sofar, (c: Customer) => CustomerSelected(transactions, emotion, segment, c));
  }

  function PurchaseKey(c: Customer): real { c.purchaseCount as real }

  /**
   * The "Top Loyalists" rows: at most 15 customers of the pool, by purchase
   * count from the largest, and no pool customer left out has more purchases
   * than a customer shown; an empty pool shows no table.
   */
  method TopLoyalists(customers: seq<Customer>, transactions: Option<seq<Transaction>>, emotion: string, segment: string)
    returns (top: seq<Customer>)
    ensures var pool := SelectedCustomers(customers, transactions, emotion, segment);
      var ranked := SortDesc(pool, PurchaseKey);
      && |top| == Min(MaxLoyalists, |pool|)
      && top == ranked[..|top|]
      && (forall i :: 0 <= i < |top| ==> top[i] in customers && CustomerSelected(transactions, emotion, segment, top[i]))
      && (forall i, j :: 0 <= i < j < |top| ==> top[i].purchaseCount >= top[j].purchaseCount)
      && (forall i, j :: 0 <= i < |top| <= j < |ranked| ==> ranked[j].purchaseCount <= top[i].purchaseCount)
      && multiset(top) + multiset(ranked[|top|..]) == multiset(pool)
  {
    var pool := LoyalistPool(customers, transactions, emotion, segment);
    if |pool| > 0 {
      top := Head(SortDesc(pool, PurchaseKey), MaxLoyalists);
    } else {
      top := [];
    }
    var ranked := SortDesc(pool, PurchaseKey);
    TopRows(pool, PurchaseKey, MaxLoyalists);
    forall i | 0 <= i < |top|
      ensures top[i] in customers && CustomerSelected(transactions, emotion, segment, top[i])
    {
      assert top[i] == ranked[i];
      assert multiset(ranked)[top[i]] > 0;
      assert top[i] in multiset(pool);
    }
  }
}
