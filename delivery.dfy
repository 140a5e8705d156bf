/** Delivery assignment and task updates in server.js: assigning a delivery
    person marks the order `assigned` and opens a task; a task update stores any
    status on the task and mirrors only `on_the_way` and `delivered` onto the
    order. Nothing guards the transitions. */
module Delivery {
  import opened Common
  import opened Orders

  const Assigned := "assigned"
  const OnTheWay := "on_the_way"
  const Delivered := "delivered"

  /** One row of the `delivery_tasks` table. */
  datatype DeliveryTask = DeliveryTask(orderId: nat, deliveryPersonId: nat, status: string)

  /** `UPDATE orders SET status=? WHERE id=?`: a missing order is left missing. */
  function SetOrderStatus(orders: map<nat, Order>, id: nat, status: string): (r: map<nat, Order>)
    ensures r.Keys == orders.Keys
    ensures id in orders ==> r[id] == orders[id].(status := status)
    ensures forall other :: other in orders && other != id ==> r[other] == orders[other]
  {
    if id in orders then orders[id := orders[id].(status := status)] else orders
  }

  /** The order status a task status is mirrored as, if it is mirrored at all. */
  function MirroredStatus(taskStatus: string): (r: Option<string>)
    ensures r.Some? <==> taskStatus == OnTheWay || taskStatus == Delivered
    ensures r.Some? ==> r.value == taskStatus
  {
    if taskStatus == Delivered then Some(Delivered)
    else if taskStatus == OnTheWay then Some(OnTheWay)
    else None
  }

  /** The tasks table after `PUT /api/delivery/task/:id` with `status`. */
  function TasksAfterUpdate(tasks: map<nat, DeliveryTask>, taskId: nat, status: string): (r: map<nat, DeliveryTask>)
    ensures r.Keys == tasks.Keys
    ensures forall t :: t in r ==> r[t].orderId == tasks[t].orderId && r[t].deliveryPersonId == tasks[t].deliveryPersonId
    ensures taskId in tasks ==> r[taskId].status == status
    ensures forall t :: t in tasks && t != taskId ==> r[t] == tasks[t]
    ensures taskId !in tasks ==> r == tasks
  {
    if taskId in tasks then tasks[taskId := tasks[taskId].(status := status)] else tasks
  }

  /** The orders table after `PUT /api/delivery/task/:id` with `status`. */
  function OrdersAfterUpdate(orders: map<nat, Order>, tasks: map<nat, DeliveryTask>, taskId: nat, status: string)
    : (r: map<nat, Order>)
    ensures r.Keys == orders.Keys
    ensures forall o :: o in r && r[o] != orders[o] ==>
              r[o] == orders[o].(status := status) && (status == OnTheWay || status == Delivered)
    ensures forall o :: o in orders && (taskId !in tasks || o != tasks[taskId].orderId) ==> r[o] == orders[o]
    ensures taskId !in tasks || tasks[taskId].orderId !in orders ==> r == orders
  {
    if taskId in tasks && MirroredStatus(status).Some?
    then SetOrderStatus(orders, tasks[taskId].orderId, MirroredStatus(status).value)
    else orders
  }

  /** A task update stores the given status on the task, whatever it is, and
      touches no other task: the named statement, for a present task, of what
      `TasksAfterUpdate`'s contract gives. */
  lemma TaskTakesAnyStatus(tasks: map<nat, DeliveryTask>, taskId: nat, status: string)
    requires taskId in tasks
    ensures TasksAfterUpdate(tasks, taskId, status).Keys == tasks.Keys
    ensures TasksAfterUpdate(tasks, taskId, status)[taskId] == tasks[taskId].(status := status)
    ensures forall t :: t in tasks && t != taskId ==> TasksAfterUpdate(tasks, taskId, status)[t] == tasks[t]
  {
  }

  /** The task's order takes the new status exactly when it is `on_the_way` or
      `delivered`; for any other status, and for every other order, nothing changes. */
  lemma OrderMirrorsOnlyTwoStatuses(orders: map<nat, Order>, tasks: map<nat, DeliveryTask>, taskId: nat, status: string)
    requires taskId in tasks && tasks[taskId].orderId in orders
    ensures OrdersAfterUpdate(orders, tasks, taskId, status).Keys == orders.Keys
    ensures OrdersAfterUpdate(orders, tasks, taskId, status)[tasks[taskId].orderId].status
            == if status == OnTheWay || status == Delivered then status else orders[tasks[taskId].orderId].status
    ensures forall o :: o in orders && o != tasks[taskId].orderId ==>
              OrdersAfterUpdate(orders, tasks, taskId, status)[o] == orders[o]
  {
  }

  /** An update naming no task changes neither table, whatever the status. */
  lemma MissingTaskChangesNothing(orders: map<nat, Order>, tasks: map<nat, DeliveryTask>, taskId: nat, status: string)
    requires taskId !in tasks
    ensures TasksAfterUpdate(tasks, taskId, status) == tasks
    ensures OrdersAfterUpdate(orders, tasks, taskId, status) == orders
  {
  }

  /** Repeating an update changes nothing further. */
  lemma UpdateIdempotent(orders: map<nat, Order>, tasks: map<nat, DeliveryTask>, taskId: nat, status: string)
    ensures var tasks1 := TasksAfterUpdate(tasks, taskId, status);
            var orders1 := OrdersAfterUpdate(orders, tasks, taskId, status);
            TasksAfterUpdate(tasks1, taskId, status) == tasks1
            && OrdersAfterUpdate(orders1, tasks1, taskId, status) == orders1
  {
    var tasks1 := TasksAfterUpdate(tasks, taskId, status);
    if taskId in tasks {
      assert tasks1[taskId].orderId == tasks[taskId].orderId;
    }
  }

  /** Nothing blocks a regression: a delivered order goes back to `on_the_way`
      when its task is updated so. */
  lemma DeliveredCanRegress(orders: map<nat, Order>, tasks: map<nat, DeliveryTask>, taskId: nat)
    requires taskId in tasks && tasks[taskId].orderId in orders
    ensures var tasks1 := TasksAfterUpdate(tasks, taskId, Delivered);
            var orders1 := OrdersAfterUpdate(orders, tasks, taskId, Delivered);
            var orders2 := OrdersAfterUpdate(orders1, tasks1, taskId, OnTheWay);
            orders1[tasks[taskId].orderId].status == Delivered
            && orders2[tasks[taskId].orderId].status == OnTheWay
  {
    var tasks1 := TasksAfterUpdate(tasks, taskId, Delivered);
    assert tasks1[taskId].orderId == tasks[taskId].orderId;
  }
}
