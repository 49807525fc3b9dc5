/** The alliance task market: a greedy allocation in a stable total order.  The loop keeps each
    tenant's remaining capacity and takes the first candidate that fits; it is proved against a
    specification that speaks of loads instead, and the specification against what the market
    promises: a partition, capacities kept, rejection only when nobody fits, and independence of
    the order in which tasks and tenants are listed. */
module TaskMarket {
  import Ordering
  import opened Options

  datatype Task = Task(id: string, priority: nat, deadline: Option<nat>, weight: nat,
                       eligible: seq<string>, required: Option<string>)
  datatype Shop = Shop(tenant: string, capacity: nat)
  datatype Assignment = Assignment(task: string, tenant: string)
  datatype Reason = RequiredAbsent(tenant: string) | RequiredFull(tenant: string) | NoEligible | NoTenant
  datatype Rejection = Rejection(task: string, reason: Reason)
  datatype Outcome =
    | Allocated(assignments: seq<Assignment>, rejected: seq<Rejection>)
    | DuplicateTenant
    | DuplicateTask

  const NO_DEADLINE: nat := 0x7FFF_FFFF_FFFF_FFFF

  predicate ValidTask(t: Task) {
    && t.id != "" && t.weight >= 1
    && (t.required.Some? && t.eligible != [] ==> t.required.value in t.eligible)
  }

  // ----- orders ------------------------------------------------------------------------------

  function Due(t: Task): nat {
    if t.deadline.Some? then t.deadline.value else NO_DEADLINE
  }

  /** Highest priority, then earliest deadline, then task id. */
  predicate Before(a: Task, b: Task) {
    || a.priority > b.priority
    || (a.priority == b.priority && (Due(a) < Due(b) || (Due(a) == Due(b) && Ordering.LexLeq(a.id, b.id))))
  }

  function ByUrgency(): (Task, Task) -> bool { (a: Task, b: Task) => Before(a, b) }
  function ByTenant(): (Shop, Shop) -> bool { (a: Shop, b: Shop) => Ordering.LexLeq(a.tenant, b.tenant) }
  function ByTask(): (Assignment, Assignment) -> bool { (a: Assignment, b: Assignment) => Ordering.LexLeq(a.task, b.task) }
  function ByRejected(): (Rejection, Rejection) -> bool { (a: Rejection, b: Rejection) => Ordering.LexLeq(a.task, b.task) }

  predicate DistinctTasks(tasks: seq<Task>) {
    forall i, j | 0 <= i < j < |tasks| :: tasks[i].id != tasks[j].id
  }

  predicate DistinctShops(shops: seq<Shop>) {
    forall i, j | 0 <= i < j < |shops| :: shops[i].tenant != shops[j].tenant
  }

  // ----- specification -------------------------------------------------------------------------

  /** Whether a tenant on the market may take the task at all. */
  predicate Candidate(task: Task, tenant: string) {
    if task.required.Some? then tenant == task.required.value
    else task.eligible == [] || tenant in task.eligible
  }

  /** Weight of the tasks placed with a tenant so far; `placed[k]` is where `ordered[k]` went. */
  function Load(ordered: seq<Task>, placed: seq<Option<string>>, tenant: string): nat
    requires |placed| <= |ordered|
    decreases |placed|
  {
    if placed == [] then 0
    else
      var k := |placed| - 1;
      Load(ordered, placed[..k], tenant) + if placed[k] == Some(tenant) then ordered[k].weight else 0
  }

  predicate Fits(ordered: seq<Task>, placed: seq<Option<string>>, shop: Shop)
    requires |placed| < |ordered|
  {
    var task := ordered[|placed|];
    Candidate(task, shop.tenant) && Load(ordered, placed, shop.tenant) + task.weight <= shop.capacity
  }

  function FirstFit(ordered: seq<Task>, placed: seq<Option<string>>, shops: seq<Shop>): Option<string>
    requires |placed| < |ordered|
  {
    if shops == [] then None
    else if Fits(ordered, placed, shops[0]) then Some(shops[0].tenant)
    else FirstFit(ordered, placed, shops[1..])
  }

  /** Where the first `k` tasks go. */
  function Placements(ordered: seq<Task>, shops: seq<Shop>, k: nat): (placed: seq<Option<string>>)
    requires k <= |ordered|
    ensures |placed| == k
  {
    if k == 0 then []
    else
      var before := Placements(ordered, shops, k - 1);
      before + [FirstFit(ordered, before, shops)]
  }

  function Assigned(ordered: seq<Task>, placed: seq<Option<string>>): seq<Assignment>
    requires |placed| <= |ordered|
    decreases |placed|
  {
    if placed == [] then []
    else
      var k := |placed| - 1;
      Assigned(ordered, placed[..k])
      + if placed[k].Some? then [Assignment(ordered[k].id, placed[k].value)] else []
  }

  predicate OnMarket(shops: seq<Shop>, tenant: string) {
    exists i | 0 <= i < |shops| :: shops[i].tenant == tenant
  }

  /** Why a task nobody takes is rejected; it does not depend on the loads. */
  function Why(task: Task, shops: seq<Shop>): Reason {
    if task.required.Some? then
      if OnMarket(shops, task.required.value) then RequiredFull(task.required.value)
      else RequiredAbsent(task.required.value)
    else if task.eligible != [] then NoEligible
    else NoTenant
  }

  function Rejected(ordered: seq<Task>, placed: seq<Option<string>>, shops: seq<Shop>): seq<Rejection>
    requires |placed| <= |ordered|
    decreases |placed|
  {
    if placed == [] then []
    else
      var k := |placed| - 1;
      Rejected(ordered, placed[..k], shops)
      + if placed[k].None? then [Rejection(ordered[k].id, Why(ordered[k], shops))] else []
  }

  function Market(tasks: seq<Task>, tenants: seq<Shop>): (outcome: Outcome)
    ensures outcome.Allocated? <==> DistinctTasks(tasks) && DistinctShops(tenants)
  {
    if !DistinctShops(tenants) then DuplicateTenant
    else if !DistinctTasks(tasks) then DuplicateTask
    else
      var ordered, shops := Ordering.Sort(tasks, ByUrgency()), Ordering.Sort(tenants, ByTenant());
      var placed := Placements(ordered, shops, |ordered|);
      Allocated(Ordering.Sort(Assigned(ordered, placed), ByTask()),
                Ordering.Sort(Rejected(ordered, placed, shops), ByRejected()))
  }

  // ----- the orders are total, and untied on distinct ids -----------------------------------------

  lemma UrgencyOrder()
    ensures Ordering.Ordered(ByUrgency())
  {
    var leq := ByUrgency();
    forall x: Task, y: Task
      ensures leq(x, y) || leq(y, x)
    {
      Ordering.LexTotal(x.id, y.id);
    }
    forall x: Task, y: Task, z: Task | leq(x, y) && leq(y, z)
      ensures leq(x, z)
    {
      if Ordering.LexLeq(x.id, y.id) && Ordering.LexLeq(y.id, z.id) {
        Ordering.LexTransitive(x.id, y.id, z.id);
      }
    }
  }

  lemma TenantOrder()
    ensures Ordering.Ordered(ByTenant())
  {
    var leq := ByTenant();
    forall x: Shop, y: Shop
      ensures leq(x, y) || leq(y, x)
    {
      Ordering.LexTotal(x.tenant, y.tenant);
    }
    forall x: Shop, y: Shop, z: Shop | leq(x, y) && leq(y, z)
      ensures leq(x, z)
    {
      Ordering.LexTransitive(x.tenant, y.tenant, z.tenant);
    }
  }

  /** Ids are distinct exactly when no task is listed twice and different tasks have different ids;
      this form does not mention the order of the list. */
  lemma DistinctTasksAsSet(tasks: seq<Task>)
    ensures DistinctTasks(tasks) <==>
            Ordering.Distinct(tasks) && forall x, y | x in tasks && y in tasks && x.id == y.id :: x == y
  {
  }

  lemma DistinctShopsAsSet(shops: seq<Shop>)
    ensures DistinctShops(shops) <==>
            Ordering.Distinct(shops) && forall x, y | x in shops && y in shops && x.tenant == y.tenant :: x == y
  {
  }

  lemma RearrangedTasks(a: seq<Task>, b: seq<Task>)
    requires multiset(a) == multiset(b)
    ensures DistinctTasks(a) <==> DistinctTasks(b)
    ensures DistinctTasks(a) ==> Ordering.Sort(a, ByUrgency()) == Ordering.Sort(b, ByUrgency())
  {
    Ordering.Repeats(a, b);
    Ordering.SameMembers(a, b);
    DistinctTasksAsSet(a);
    DistinctTasksAsSet(b);
    if DistinctTasks(a) {
      UrgencyOrder();
      forall x, y | x in a && y in a && ByUrgency()(x, y) && ByUrgency()(y, x)
        ensures x == y
      {
        Ordering.LexAntisymmetric(x.id, y.id);
      }
      Ordering.SortCanonical(a, b, ByUrgency());
    }
  }

  lemma RearrangedShops(a: seq<Shop>, b: seq<Shop>)
    requires multiset(a) == multiset(b)
    ensures DistinctShops(a) <==> DistinctShops(b)
    ensures DistinctShops(a) ==> Ordering.Sort(a, ByTenant()) == Ordering.Sort(b, ByTenant())
  {
    Ordering.Repeats(a, b);
    Ordering.SameMembers(a, b);
    DistinctShopsAsSet(a);
    DistinctShopsAsSet(b);
    if DistinctShops(a) {
      TenantOrder();
      forall x, y | x in a && y in a && ByTenant()(x, y) && ByTenant()(y, x)
        ensures x == y
      {
        Ordering.LexAntisymmetric(x.tenant, y.tenant);
      }
      Ordering.SortCanonical(a, b, ByTenant());
    }
  }

  /** The order in which tasks and tenants are listed does not matter. */
  lemma OrderForgotten(tasks: seq<Task>, others: seq<Task>, tenants: seq<Shop>, peers: seq<Shop>)
    requires multiset(tasks) == multiset(others) && multiset(tenants) == multiset(peers)
    ensures Market(tasks, tenants) == Market(others, peers)
  {
    RearrangedTasks(tasks, others);
    RearrangedShops(tenants, peers);
  }

  // ----- what the placements mean -------------------------------------------------------------------

  lemma {:induction false} FirstFitMeans(ordered: seq<Task>, placed: seq<Option<string>>, shops: seq<Shop>) returns (i: nat)
    requires |placed| < |ordered|
    ensures i <= |shops| && forall j | 0 <= j < i :: !Fits(ordered, placed, shops[j])
    ensures FirstFit(ordered, placed, shops) == if i < |shops| then Some(shops[i].tenant) else None
    ensures i < |shops| ==> Fits(ordered, placed, shops[i])
  {
    hide Fits;
    if shops == [] || Fits(ordered, placed, shops[0]) {
      i := 0;
    } else {
      var rest := FirstFitMeans(ordered, placed, shops[1..]);
      i := rest + 1;
    }
  }

  lemma {:induction false} PlacementAt(ordered: seq<Task>, shops: seq<Shop>, n: nat, k: nat)
    requires k <= n <= |ordered|
    ensures Placements(ordered, shops, n)[..k] == Placements(ordered, shops, k)
    ensures k < n ==> Placements(ordered, shops, n)[k] == FirstFit(ordered, Placements(ordered, shops, k), shops)
  {
    hide FirstFit;
    if k < n {
      PlacementAt(ordered, shops, n - 1, k);
      assert Placements(ordered, shops, n)[..k] == Placements(ordered, shops, n - 1)[..k];
    }
  }

  lemma {:induction false} AssignedMember(ordered: seq<Task>, placed: seq<Option<string>>, a: Assignment)
    requires |placed| <= |ordered|
    ensures a in Assigned(ordered, placed) <==>
            exists k | 0 <= k < |placed| :: placed[k] == Some(a.tenant) && ordered[k].id == a.task
    decreases |placed|
  {
    if placed != [] {
      AssignedMember(ordered, placed[..|placed| - 1], a);
    }
  }

  lemma {:induction false} RejectedMember(ordered: seq<Task>, placed: seq<Option<string>>, shops: seq<Shop>, r: Rejection)
    requires |placed| <= |ordered|
    ensures r in Rejected(ordered, placed, shops) <==>
            exists k | 0 <= k < |placed| :: placed[k].None? && r == Rejection(ordered[k].id, Why(ordered[k], shops))
    decreases |placed|
  {
    hide Why;
    if placed != [] {
      RejectedMember(ordered, placed[..|placed| - 1], shops, r);
    }
  }

  lemma {:induction false} EveryTaskDecided(ordered: seq<Task>, placed: seq<Option<string>>, shops: seq<Shop>)
    requires |placed| <= |ordered|
    ensures |Assigned(ordered, placed)| + |Rejected(ordered, placed, shops)| == |placed|
    decreases |placed|
  {
    hide Why;
    if placed != [] {
      EveryTaskDecided(ordered, placed[..|placed| - 1], shops);
    }
  }

  // ----- loads, read off the result ---------------------------------------------------------------

  /** Weight of the listed tasks that the result assigns to a tenant. */
  function Held(list: seq<Task>, assignments: seq<Assignment>, tenant: string): nat {
    if list == [] then 0
    else
      (if Assignment(list[0].id, tenant) in assignments then list[0].weight else 0) + Held(list[1..], assignments, tenant)
  }

  lemma {:induction false} HeldAppend(list: seq<Task>, last: Task, assignments: seq<Assignment>, tenant: string)
    ensures Held(list + [last], assignments, tenant)
            == Held(list, assignments, tenant) + if Assignment(last.id, tenant) in assignments then last.weight else 0
  {
    if list != [] {
      HeldAppend(list[1..], last, assignments, tenant);
      assert (list + [last])[1..] == list[1..] + [last];
    }
  }

  lemma {:induction false} HeldInsert(x: Task, list: seq<Task>, assignments: seq<Assignment>, tenant: string)
    ensures Held(Ordering.Insert(x, list, ByUrgency()), assignments, tenant) == Held([x] + list, assignments, tenant)
  {
    hide ByUrgency;
    assert ([x] + list)[1..] == list;
    if list != [] {
      HeldInsert(x, list[1..], assignments, tenant);
      assert ([x] + list[1..])[1..] == list[1..];
    }
  }

  lemma {:induction false} HeldSort(list: seq<Task>, assignments: seq<Assignment>, tenant: string)
    ensures Held(Ordering.Sort(list, ByUrgency()), assignments, tenant) == Held(list, assignments, tenant)
  {
    if list != [] {
      HeldSort(list[1..], assignments, tenant);
      var rest := Ordering.Sort(list[1..], ByUrgency());
      HeldInsert(list[0], rest, assignments, tenant);
      assert ([list[0]] + rest)[1..] == rest;
    }
  }

  /** The tasks of a market in the order in which they are served. */
  function Served(tasks: seq<Task>): seq<Task> {
    Ordering.Sort(tasks, ByUrgency())
  }

  /** Tasks are served by priority, highest first; among equals the earlier deadline goes first, one
      with a deadline before one without; among those, the lower id. */
  lemma ServedByUrgency(tasks: seq<Task>, k: nat, l: nat)
    requires k < l < |tasks|
    ensures |Served(tasks)| == |tasks|
    ensures var a, b := Served(tasks)[k], Served(tasks)[l];
      && a.priority >= b.priority
      && (a.priority == b.priority && b.deadline.Some? && b.deadline.value < 0x7FFF_FFFF_FFFF_FFFF ==>
            a.deadline.Some? && a.deadline.value <= b.deadline.value)
      && (a.priority == b.priority && a.deadline == b.deadline ==> Ordering.LexLeq(a.id, b.id))
  {
    UrgencyOrder();
    hide Ordering.Sort, Ordering.Ordered;
    Ordering.SortSorted(tasks, ByUrgency());
    Ordering.SameMembers(tasks, Served(tasks));
    assert Before(Served(tasks)[k], Served(tasks)[l]);
  }

  /** Membership in the two lists of an outcome, by position in the serving order. */
  lemma OutcomeMembers(tasks: seq<Task>, tenants: seq<Shop>, k: nat)
    requires DistinctTasks(tasks) && DistinctShops(tenants) && k < |tasks|
    ensures |Served(tasks)| == |tasks|
    ensures forall x :: Assignment(Served(tasks)[k].id, x) in Market(tasks, tenants).assignments <==>
                        PlacedAt(tasks, tenants)[k] == Some(x)
    ensures forall r :: Rejection(Served(tasks)[k].id, r) in Market(tasks, tenants).rejected <==>
                        PlacedAt(tasks, tenants)[k].None? && r == Why(Served(tasks)[k], tenants)
  {
    hide Why, Ordering.Sort, Placements, Assigned, Rejected;
    var ordered, shops := Served(tasks), Ordering.Sort(tenants, ByTenant());
    var placed := PlacedAt(tasks, tenants);
    ServedDistinct(tasks);
    Ordering.SameMembers(Assigned(ordered, placed), Ordering.Sort(Assigned(ordered, placed), ByTask()));
    Ordering.SameMembers(Rejected(ordered, placed, shops), Ordering.Sort(Rejected(ordered, placed, shops), ByRejected()));
    forall x
      ensures Assignment(ordered[k].id, x) in Assigned(ordered, placed) <==> placed[k] == Some(x)
    {
      AssignedMember(ordered, placed, Assignment(ordered[k].id, x));
    }
    WhyForgets(ordered[k], tenants);
    forall r
      ensures Rejection(ordered[k].id, r) in Rejected(ordered, placed, shops)
              <==> placed[k].None? && r == Why(ordered[k], shops)
    {
      RejectedMember(ordered, placed, shops, Rejection(ordered[k].id, r));
    }
  }

  function PlacedAt(tasks: seq<Task>, tenants: seq<Shop>): (placed: seq<Option<string>>)
    ensures |placed| == |Served(tasks)|
  {
    Placements(Served(tasks), Ordering.Sort(tenants, ByTenant()), |Served(tasks)|)
  }

  lemma ServedDistinct(tasks: seq<Task>)
    requires DistinctTasks(tasks)
    ensures |Served(tasks)| == |tasks| && DistinctTasks(Served(tasks))
    ensures forall t :: t in Served(tasks) <==> t in tasks
  {
    hide Ordering.Sort;
    Ordering.SameMembers(tasks, Served(tasks));
    Ordering.Repeats(tasks, Served(tasks));
    DistinctTasksAsSet(tasks);
    DistinctTasksAsSet(Served(tasks));
  }

  lemma WhyForgets(task: Task, tenants: seq<Shop>)
    ensures Why(task, tenants) == Why(task, Ordering.Sort(tenants, ByTenant()))
  {
    hide Ordering.Sort;
    var shops := Ordering.Sort(tenants, ByTenant());
    Ordering.SameMembers(tenants, shops);
    forall x
      ensures OnMarket(tenants, x) <==> OnMarket(shops, x)
    {
      if OnMarket(tenants, x) {
        var i :| 0 <= i < |tenants| && tenants[i].tenant == x;
        assert tenants[i] in shops;
      }
      if OnMarket(shops, x) {
        var i :| 0 <= i < |shops| && shops[i].tenant == x;
        assert shops[i] in tenants;
      }
    }
  }

  /** Loads along the serving order, read off the result. */
  lemma {:induction false} HeldIsLoad(tasks: seq<Task>, tenants: seq<Shop>, k: nat, tenant: string)
    requires DistinctTasks(tasks) && DistinctShops(tenants) && k <= |tasks| && |Served(tasks)| == |tasks|
    ensures Held(Served(tasks)[..k], Market(tasks, tenants).assignments, tenant)
            == Load(Served(tasks), PlacedAt(tasks, tenants)[..k], tenant)
  {
    hide Market, PlacedAt, Served;
    if k > 0 {
      var ordered, placed := Served(tasks), PlacedAt(tasks, tenants);
      HeldIsLoad(tasks, tenants, k - 1, tenant);
      OutcomeMembers(tasks, tenants, k - 1);
      HeldAppend(ordered[..k - 1], ordered[k - 1], Market(tasks, tenants).assignments, tenant);
      assert ordered[..k] == ordered[..k - 1] + [ordered[k - 1]];
      assert placed[..k][..k - 1] == placed[..k - 1];
    }
  }

  // ----- what the market promises -------------------------------------------------------------------

  /** Every task is in exactly one of the two lists, and nothing else is. */
  lemma TasksPartitioned(tasks: seq<Task>, tenants: seq<Shop>, t: Task)
    requires DistinctTasks(tasks) && DistinctShops(tenants) && t in tasks
    ensures |Market(tasks, tenants).assignments| + |Market(tasks, tenants).rejected| == |tasks|
    ensures (exists x :: Assignment(t.id, x) in Market(tasks, tenants).assignments)
            <==> !(exists r :: Rejection(t.id, r) in Market(tasks, tenants).rejected)
    ensures forall x, y | Assignment(t.id, x) in Market(tasks, tenants).assignments
                          && Assignment(t.id, y) in Market(tasks, tenants).assignments :: x == y
  {
    hide Why;
    ServedDistinct(tasks);
    var ordered, shops, placed := Served(tasks), Ordering.Sort(tenants, ByTenant()), PlacedAt(tasks, tenants);
    EveryTaskDecided(ordered, placed, shops);
    Ordering.SameMembers(Assigned(ordered, placed), Ordering.Sort(Assigned(ordered, placed), ByTask()));
    Ordering.SameMembers(Rejected(ordered, placed, shops), Ordering.Sort(Rejected(ordered, placed, shops), ByRejected()));
    var k :| 0 <= k < |ordered| && ordered[k] == t;
    OutcomeMembers(tasks, tenants, k);
    if placed[k].Some? {
      assert Assignment(t.id, placed[k].value) in Market(tasks, tenants).assignments;
    } else {
      assert Rejection(t.id, Why(t, tenants)) in Market(tasks, tenants).rejected;
    }
  }

  /** Whether a shop can still take the `k`-th served task, given what the result has it hold of
      the tasks served earlier. */
  predicate HasRoom(tasks: seq<Task>, assignments: seq<Assignment>, k: nat, shop: Shop)
    requires k < |Served(tasks)|
  {
    var task := Served(tasks)[k];
    Candidate(task, shop.tenant) && Held(Served(tasks)[..k], assignments, shop.tenant) + task.weight <= shop.capacity
  }

  /** A task is rejected exactly when no candidate has room next to what it holds of the tasks
      served earlier; otherwise it goes to the first candidate with room, in tenant order. */
  lemma ServedGreedily(tasks: seq<Task>, tenants: seq<Shop>, k: nat)
    requires DistinctTasks(tasks) && DistinctShops(tenants) && k < |tasks|
    ensures |Served(tasks)| == |tasks|
    ensures forall r :: Rejection(Served(tasks)[k].id, r) in Market(tasks, tenants).rejected <==>
              r == Why(Served(tasks)[k], tenants)
              && forall shop | shop in tenants :: !HasRoom(tasks, Market(tasks, tenants).assignments, k, shop)
    ensures forall x :: Assignment(Served(tasks)[k].id, x) in Market(tasks, tenants).assignments ==>
              exists shop | shop in tenants ::
                shop.tenant == x && FirstWithRoom(tasks, tenants, Market(tasks, tenants).assignments, k, shop)
  {
    hide Why, Market, Placements, Ordering.Sort, Held, Load, Candidate;
    var shops, assignments := Ordering.Sort(tenants, ByTenant()), Market(tasks, tenants).assignments;
    var placed := PlacedAt(tasks, tenants);
    OutcomeMembers(tasks, tenants, k);
    PlacementAt(Served(tasks), shops, |tasks|, k);
    Ordering.SameMembers(tenants, shops);
    var i := FirstFitMeans(Served(tasks), placed[..k], shops);
    forall shop
      ensures Fits(Served(tasks), placed[..k], shop) <==> HasRoom(tasks, assignments, k, shop)
    {
      HeldIsLoad(tasks, tenants, k, shop.tenant);
    }
    if i < |shops| {
      FirstInOrder(tasks, tenants, assignments, k, shops, i);
      assert shops[i] in tenants;
    } else {
      forall shop | shop in tenants
        ensures !HasRoom(tasks, assignments, k, shop)
      {
        assert shop in shops;
      }
    }
  }

  ghost predicate FirstWithRoom(tasks: seq<Task>, tenants: seq<Shop>, assignments: seq<Assignment>, k: nat, shop: Shop)
    requires k < |Served(tasks)|
  {
    && HasRoom(tasks, assignments, k, shop)
    && forall other | other in tenants && HasRoom(tasks, assignments, k, other) ::
         Ordering.LexLeq(shop.tenant, other.tenant)
  }

  lemma FirstInOrder(tasks: seq<Task>, tenants: seq<Shop>, assignments: seq<Assignment>, k: nat, shops: seq<Shop>, i: nat)
    requires k < |Served(tasks)| && i < |shops| && shops == Ordering.Sort(tenants, ByTenant())
    requires HasRoom(tasks, assignments, k, shops[i])
    requires forall j | 0 <= j < i :: !HasRoom(tasks, assignments, k, shops[j])
    ensures FirstWithRoom(tasks, tenants, assignments, k, shops[i])
  {
    hide HasRoom, Ordering.Sort;
    TenantOrder();
    Ordering.SortSorted(tenants, ByTenant());
    Ordering.SameMembers(tenants, shops);
    forall other | other in tenants && HasRoom(tasks, assignments, k, other)
      ensures Ordering.LexLeq(shops[i].tenant, other.tenant)
    {
      assert other in shops;
      var j :| 0 <= j < |shops| && shops[j] == other;
      assert ByTenant()(shops[i], shops[i]);
      assert j == i || ByTenant()(shops[i], shops[j]);
    }
  }

  /** No tenant is given more than its capacity. */
  lemma CapacityKept(tasks: seq<Task>, tenants: seq<Shop>, shop: Shop)
    requires DistinctTasks(tasks) && DistinctShops(tenants) && shop in tenants
    ensures Held(tasks, Market(tasks, tenants).assignments, shop.tenant) <= shop.capacity
  {
    hide Market, Served, PlacedAt;
    ServedDistinct(tasks);
    LoadBounded(tasks, tenants, |tasks|, shop);
    HeldIsLoad(tasks, tenants, |tasks|, shop.tenant);
    HeldSort(tasks, Market(tasks, tenants).assignments, shop.tenant);
    assert Served(tasks)[..|tasks|] == Served(tasks);
    ServedIs(tasks);
  }

  lemma ServedIs(tasks: seq<Task>)
    ensures Served(tasks) == Ordering.Sort(tasks, ByUrgency())
  {
  }

  lemma {:induction false} LoadBounded(tasks: seq<Task>, tenants: seq<Shop>, k: nat, shop: Shop)
    requires DistinctTasks(tasks) && DistinctShops(tenants) && shop in tenants && k <= |Served(tasks)|
    ensures Load(Served(tasks), PlacedAt(tasks, tenants)[..k], shop.tenant) <= shop.capacity
  {
    hide Ordering.Sort, Placements, Candidate, FirstFit;
    if k > 0 {
      var ordered, placed, shops := Served(tasks), PlacedAt(tasks, tenants), Ordering.Sort(tenants, ByTenant());
      LoadBounded(tasks, tenants, k - 1, shop);
      PlacementAt(ordered, shops, |ordered|, k - 1);
      assert placed[..k][..k - 1] == placed[..k - 1];
      var i := FirstFitMeans(ordered, placed[..k - 1], shops);
      if placed[k - 1] == Some(shop.tenant) {
        Ordering.SameMembers(tenants, shops);
        DistinctShopsAsSet(tenants);
        assert shops[i] in tenants;
        assert shops[i] == shop;
      }
    }
  }

  // ----- the allocation loop ------------------------------------------------------------------------

  function Filter(ids: seq<string>, wanted: seq<string>): seq<string> {
    if ids == [] then []
    else (if ids[0] in wanted then [ids[0]] else []) + Filter(ids[1..], wanted)
  }

  function CandidateTenants(task: Task, ids: seq<string>): seq<string> {
    if task.required.Some? then
      if task.required.value !in ids then [] else [task.required.value]
    else if task.eligible != [] then Filter(ids, task.eligible)
    else ids
  }

  function RejectionReason(task: Task, remaining: map<string, nat>): Reason {
    if task.required.Some? then
      if task.required.value !in remaining then RequiredAbsent(task.required.value)
      else RequiredFull(task.required.value)
    else if task.eligible != []
            && !exists i | 0 <= i < |task.eligible| ::
                  (if task.eligible[i] in remaining then remaining[task.eligible[i]] else 0) >= task.weight
    then NoEligible
    else NoTenant
  }

  /** The first listed tenant with enough capacity left. */
  function Choose(candidates: seq<string>, remaining: map<string, nat>, weight: nat): Option<string> {
    if candidates == [] then None
    else if candidates[0] in remaining && remaining[candidates[0]] >= weight then Some(candidates[0])
    else Choose(candidates[1..], remaining, weight)
  }

  /** `remaining` holds what the loads leave of each capacity, for the tenants on the market. */
  ghost predicate Tracks(remaining: map<string, nat>, ordered: seq<Task>, placed: seq<Option<string>>, shops: seq<Shop>)
    requires |placed| <= |ordered|
  {
    && (forall i | 0 <= i < |shops| ::
          shops[i].tenant in remaining
          && remaining[shops[i].tenant] + Load(ordered, placed, shops[i].tenant) == shops[i].capacity)
    && forall t | t in remaining :: OnMarket(shops, t)
  }

  lemma {:induction false} ChooseFiltered(ordered: seq<Task>, placed: seq<Option<string>>, shops: seq<Shop>, ids: seq<string>,
                                          remaining: map<string, nat>)
    requires |placed| < |ordered| && ordered[|placed|].required.None?
    requires |ids| == |shops| && forall i | 0 <= i < |ids| :: ids[i] == shops[i].tenant
    requires forall i | 0 <= i < |shops| ::
               shops[i].tenant in remaining
               && remaining[shops[i].tenant] + Load(ordered, placed, shops[i].tenant) == shops[i].capacity
    ensures Choose(CandidateTenants(ordered[|placed|], ids), remaining, ordered[|placed|].weight)
            == FirstFit(ordered, placed, shops)
  {
    hide Load;
    var task := ordered[|placed|];
    if shops != [] {
      ChooseFiltered(ordered, placed, shops[1..], ids[1..], remaining);
      assert remaining[ids[0]] >= task.weight <==> Load(ordered, placed, ids[0]) + task.weight <= shops[0].capacity;
      if task.eligible != [] && ids[0] in task.eligible {
        assert ([ids[0]] + Filter(ids[1..], task.eligible))[1..] == Filter(ids[1..], task.eligible);
      } else {
        assert [] + Filter(ids[1..], task.eligible) == Filter(ids[1..], task.eligible);
      }
    }
  }

  lemma ChooseIsFirstFit(ordered: seq<Task>, placed: seq<Option<string>>, shops: seq<Shop>, ids: seq<string>,
                         remaining: map<string, nat>)
    requires |placed| < |ordered| && Tracks(remaining, ordered, placed, shops)
    requires |ids| == |shops| && forall i | 0 <= i < |ids| :: ids[i] == shops[i].tenant
    ensures Choose(CandidateTenants(ordered[|placed|], ids), remaining, ordered[|placed|].weight)
            == FirstFit(ordered, placed, shops)
  {
    hide Load, FirstFit;
    var task := ordered[|placed|];
    if task.required.None? {
      ChooseFiltered(ordered, placed, shops, ids, remaining);
    } else {
      var i := FirstFitMeans(ordered, placed, shops);
      if i < |shops| {
        assert ids[i] == task.required.value;
      } else if task.required.value in ids {
        var j :| 0 <= j < |ids| && ids[j] == task.required.value;
        assert !Fits(ordered, placed, shops[j]);
      }
    }
  }

  /** When nobody takes the task, the reason computed from the remaining capacities does not depend
      on them. */
  lemma ReasonIsWhy(ordered: seq<Task>, placed: seq<Option<string>>, shops: seq<Shop>, remaining: map<string, nat>)
    requires |placed| < |ordered| && Tracks(remaining, ordered, placed, shops) && ValidTask(ordered[|placed|])
    requires FirstFit(ordered, placed, shops).None?
    ensures RejectionReason(ordered[|placed|], remaining) == Why(ordered[|placed|], shops)
  {
    hide Load, FirstFit;
    var task := ordered[|placed|];
    var i := FirstFitMeans(ordered, placed, shops);
    if task.required.None? && task.eligible != [] {
      forall j | 0 <= j < |task.eligible|
        ensures (if task.eligible[j] in remaining then remaining[task.eligible[j]] else 0) < task.weight
      {
        if task.eligible[j] in remaining {
          var n :| 0 <= n < |shops| && shops[n].tenant == task.eligible[j];
          assert !Fits(ordered, placed, shops[n]);
        }
      }
    }
  }

  lemma TracksNext(remaining: map<string, nat>, ordered: seq<Task>, placed: seq<Option<string>>, shops: seq<Shop>,
                   chosen: Option<string>) returns (left: map<string, nat>)
    requires |placed| < |ordered| && Tracks(remaining, ordered, placed, shops)
    requires chosen == FirstFit(ordered, placed, shops) && DistinctShops(shops)
    ensures chosen.Some? ==>
              chosen.value in remaining && remaining[chosen.value] >= ordered[|placed|].weight
              && left == remaining[chosen.value := remaining[chosen.value] - ordered[|placed|].weight]
    ensures chosen.None? ==> left == remaining
    ensures Tracks(left, ordered, placed + [chosen], shops)
  {
    hide FirstFit;
    var n := FirstFitMeans(ordered, placed, shops);
    left := remaining;
    if n < |shops| {
      left := remaining[chosen.value := remaining[chosen.value] - ordered[|placed|].weight];
    }
    assert (placed + [chosen])[..|placed|] == placed;
    forall i | 0 <= i < |shops|
      ensures shops[i].tenant in left
      ensures left[shops[i].tenant] + Load(ordered, placed + [chosen], shops[i].tenant) == shops[i].capacity
    {
    }
  }

  function TaskId(t: Task): string { t.id }
  function AssignedId(a: Assignment): string { a.task }
  function RejectedId(r: Rejection): string { r.task }

  function IdsOf(assignments: seq<Assignment>, rejected: seq<Rejection>): seq<string> {
    Ordering.Image(assignments, AssignedId) + Ordering.Image(rejected, RejectedId)
  }

  /** The check of the result record: no id twice in a list, none in both. */
  predicate Clash(assignments: seq<Assignment>, rejected: seq<Rejection>) {
    var a, r := Ordering.Image(assignments, AssignedId), Ordering.Image(rejected, RejectedId);
    !Ordering.Distinct(a) || !Ordering.Distinct(r) || exists i, j :: 0 <= i < |a| && 0 <= j < |r| && a[i] == r[j]
  }

  lemma ClashMeans(assignments: seq<Assignment>, rejected: seq<Rejection>)
    ensures Clash(assignments, rejected) <==> !Ordering.Distinct(IdsOf(assignments, rejected))
  {
    hide Ordering.Distinct;
    Ordering.DistinctConcat(Ordering.Image(assignments, AssignedId), Ordering.Image(rejected, RejectedId));
  }

  lemma {:induction false} DecidedIds(ordered: seq<Task>, placed: seq<Option<string>>, shops: seq<Shop>)
    requires |placed| <= |ordered|
    ensures multiset(IdsOf(Assigned(ordered, placed), Rejected(ordered, placed, shops)))
            == multiset(Ordering.Image(ordered[..|placed|], TaskId))
    decreases |placed|
  {
    if placed == [] {
      assert ordered[..0] == [];
    } else {
      var k := |placed| - 1;
      DecidedIds(ordered, placed[..k], shops);
      MoreImage(ordered, k);
      OneMoreId(Assigned(ordered, placed[..k]), Rejected(ordered, placed[..k], shops), ordered[k], placed[k], shops);
      assert Assigned(ordered, placed) == Assigned(ordered, placed[..k])
             + if placed[k].Some? then [Assignment(ordered[k].id, placed[k].value)] else [];
      assert Rejected(ordered, placed, shops) == Rejected(ordered, placed[..k], shops)
             + if placed[k].None? then [Rejection(ordered[k].id, Why(ordered[k], shops))] else [];
      hide Why, Ordering.Image, IdsOf, Assigned, Rejected;
      if placed[k].Some? {
        assert Rejected(ordered, placed, shops) == Rejected(ordered, placed[..k], shops);
      } else {
        assert Assigned(ordered, placed) == Assigned(ordered, placed[..k]);
      }
    }
  }

  lemma MoreImage(ordered: seq<Task>, k: nat)
    requires k < |ordered|
    ensures multiset(Ordering.Image(ordered[..k + 1], TaskId))
            == multiset(Ordering.Image(ordered[..k], TaskId)) + multiset{ordered[k].id}
  {
    assert Ordering.Image(ordered[..k + 1], TaskId) == Ordering.Image(ordered[..k], TaskId) + [ordered[k].id];
  }

  lemma OneMoreId(assignments: seq<Assignment>, rejected: seq<Rejection>, task: Task, place: Option<string>, shops: seq<Shop>)
    ensures place.Some? ==> multiset(IdsOf(assignments + [Assignment(task.id, place.value)], rejected))
                            == multiset(IdsOf(assignments, rejected)) + multiset{task.id}
    ensures multiset(IdsOf(assignments, rejected + [Rejection(task.id, Why(task, shops))]))
            == multiset(IdsOf(assignments, rejected)) + multiset{task.id}
  {
    hide Why;
    var a, r := Ordering.Image(assignments, AssignedId), Ordering.Image(rejected, RejectedId);
    if place.Some? {
      assert IdsOf(assignments + [Assignment(task.id, place.value)], rejected) == a + [task.id] + r;
    }
    assert IdsOf(assignments, rejected + [Rejection(task.id, Why(task, shops))]) == a + r + [task.id];
  }

  /** The record's check fails exactly when two of the offered tasks share an id. */
  lemma ClashExactly(tasks: seq<Task>, shops: seq<Shop>, placed: seq<Option<string>>)
    requires |placed| == |Served(tasks)|
    ensures Clash(Ordering.Sort(Assigned(Served(tasks), placed), ByTask()),
                  Ordering.Sort(Rejected(Served(tasks), placed, shops), ByRejected()))
            <==> !DistinctTasks(tasks)
  {
    hide Ordering.Sort, Assigned, Rejected, ByTask, ByRejected, ByUrgency;
    var ordered := Served(tasks);
    var a, r := Assigned(ordered, placed), Rejected(ordered, placed, shops);
    var sa, sr := Ordering.Sort(a, ByTask()), Ordering.Sort(r, ByRejected());
    ClashMeans(sa, sr);
    Ordering.ImageRearranged(a, sa, AssignedId);
    Ordering.ImageRearranged(r, sr, RejectedId);
    assert multiset(IdsOf(a, r)) == multiset(IdsOf(sa, sr));
    DecidedIds(ordered, placed, shops);
    assert ordered[..|placed|] == ordered;
    Ordering.Repeats(IdsOf(sa, sr), Ordering.Image(ordered, TaskId));
    Ordering.ImageRearranged(tasks, ordered, TaskId);
    Ordering.Repeats(Ordering.Image(ordered, TaskId), Ordering.Image(tasks, TaskId));
    assert DistinctTasks(tasks) <==> Ordering.Distinct(Ordering.Image(tasks, TaskId));
  }

  lemma MarketAppend(shops: seq<Shop>, n: nat, tenant: string)
    requires n < |shops|
    ensures OnMarket(shops[..n + 1], tenant) <==> OnMarket(shops[..n], tenant) || tenant == shops[n].tenant
  {
    assert shops[..n + 1] == shops[..n] + [shops[n]];
    assert shops[..n + 1][n] == shops[n];
    assert forall i | 0 <= i < n :: shops[..n + 1][i] == shops[..n][i];
  }

  method ListTenants(shops: seq<Shop>) returns (capacities: map<string, nat>, ids: seq<string>, duplicate: bool)
    ensures duplicate <==> !DistinctShops(shops)
    ensures !duplicate ==> |ids| == |shops| && forall i | 0 <= i < |ids| :: ids[i] == shops[i].tenant
    ensures !duplicate ==> Tracks(capacities, [], [], shops)
  {
    assert forall t :: !OnMarket(shops[..0], t);
    hide OnMarket;
    capacities, ids, duplicate := map[], [], false;
    for n := 0 to |shops|
      invariant DistinctShops(shops[..n]) && !duplicate
      invariant |ids| == n && forall i | 0 <= i < n :: ids[i] == shops[i].tenant
      invariant forall i | 0 <= i < n :: shops[i].tenant in capacities && capacities[shops[i].tenant] == shops[i].capacity
      invariant forall t :: t in capacities <==> OnMarket(shops[..n], t)
    {
      if shops[n].tenant in capacities {
        Listed(shops, n);
        return capacities, ids, true;
      }
      forall t
        ensures OnMarket(shops[..n + 1], t) <==> OnMarket(shops[..n], t) || t == shops[n].tenant
      {
        MarketAppend(shops, n, t);
      }
      capacities := capacities[shops[n].tenant := shops[n].capacity];
      ids := ids + [shops[n].tenant];
    }
    assert shops[..|shops|] == shops;
  }

  lemma Listed(shops: seq<Shop>, n: nat)
    requires n < |shops| && OnMarket(shops[..n], shops[n].tenant)
    ensures !DistinctShops(shops)
  {
    var i :| 0 <= i < n && shops[..n][i].tenant == shops[n].tenant;
    assert shops[i].tenant == shops[n].tenant;
  }

  method ChooseTenant(candidates: seq<string>, remaining: map<string, nat>, weight: nat) returns (chosen: Option<string>)
    ensures chosen == Choose(candidates, remaining, weight)
  {
    chosen := None;
    for j := 0 to |candidates|
      invariant chosen.None? && Choose(candidates, remaining, weight) == Choose(candidates[j..], remaining, weight)
    {
      if candidates[j] in remaining && remaining[candidates[j]] >= weight {
        chosen := Some(candidates[j]);
        return;
      }
    }
  }

  /** Deterministic allocation of tasks to tenants. */
  method AssignTasks(tasks: seq<Task>, tenants: seq<Shop>) returns (result: Outcome)
    requires forall t | t in tasks :: ValidTask(t)
    ensures result == Market(tasks, tenants)
  {
    hide Ordering.Sort, ByTask, ByRejected, ByTenant, ByUrgency, CandidateTenants, RejectionReason, Why, FirstFit, ValidTask, Clash;
    var shops := Ordering.Sort(tenants, ByTenant());
    assert DistinctShops(shops) <==> DistinctShops(tenants) by { RearrangedShops(tenants, shops); }
    var remaining: map<string, nat>, ids: seq<string>, duplicate: bool := ListTenants(shops);
    if duplicate {
      return DuplicateTenant;
    }
    var ordered := Ordering.Sort(tasks, ByUrgency());
    Ordering.SameMembers(tasks, ordered);
    var assignments: seq<Assignment>, rejected: seq<Rejection> := [], [];
    ghost var placed: seq<Option<string>> := [];
    for k := 0 to |ordered|
      invariant placed == Placements(ordered, shops, k)
      invariant Tracks(remaining, ordered, placed, shops)
      invariant assignments == Assigned(ordered, placed) && rejected == Rejected(ordered, placed, shops)
    {
      var task := ordered[k];
      assert ValidTask(task) by { assert task in tasks; }
      var chosen := ChooseTenant(CandidateTenants(task, ids), remaining, task.weight);
      ChooseIsFirstFit(ordered, placed, shops, ids, remaining);
      ghost var left := TracksNext(remaining, ordered, placed, shops, chosen);
      assert (placed + [chosen])[..k] == placed;
      if chosen.None? {
        ReasonIsWhy(ordered, placed, shops, remaining);
        rejected := rejected + [Rejection(task.id, RejectionReason(task, remaining))];
      } else {
        remaining := remaining[chosen.value := remaining[chosen.value] - task.weight];
        assignments := assignments + [Assignment(task.id, chosen.value)];
      }
      placed := placed + [chosen];
    }
    assignments := Ordering.Sort(assignments, ByTask());
    rejected := Ordering.Sort(rejected, ByRejected());
    ClashExactly(tasks, shops, placed);
    if Clash(assignments, rejected) {
      return DuplicateTask;
    }
    return Allocated(assignments, rejected);
  }
}
