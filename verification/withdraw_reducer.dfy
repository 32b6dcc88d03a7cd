/** The store of the withdrawal-approval screen
    (`pendingAcceptBankCashListReducer`): the list of pending cash and bank
    withdrawals, and the flags the screen's pop-ups read. */
module ProcessWithdrawAdmin {
  import opened Results
  import opened Json

  datatype Action =
    | GetPendingListSuccess(response: Value)
    | GetPendingListFail(error: Value)
    | ApproveSuccess
    | ApproveFail(error: Value)
    | ChangeStoreData(key: string, value: Value)
    | Unhandled  // any other action type

  const InitialState: Store := map[
    "error" := Obj(map[]),
    "pendingAcceptBankCashList" := Arr([]),
    "showWarningapprove" := Bool(false),
    "showWarningreject" := Bool(false),
    "showSuccessapprove" := Bool(false),
    "showErrorsapprove" := Bool(false),
    "action" := Bool(false)
  ]

  /** The keys an action may write, by the action's type. */
  function Writes(a: Action): set<string> {
    match a
    case GetPendingListSuccess(_) => {"pendingAcceptBankCashList"}
    case GetPendingListFail(_) => {"error"}
    case ApproveSuccess => {"action", "showSuccessapprove"}
    case ApproveFail(_) => {"action", "error", "showErrorsapprove"}
    case ChangeStoreData(key, _) => {key}
    case Unhandled => {}
  }

  /** Whether the action answers an approval request, either way. */
  predicate IsApprovalResult(a: Action) {
    a.ApproveSuccess? || a.ApproveFail?
  }

  /** The reducer; an absent state is the initial state. */
  function Reduce(state: Option<Store>, a: Action): (r: Store)
    ensures var s := if state.None? then InitialState else state.value;
            && r.Keys == s.Keys + Writes(a)
            && (forall k :: k !in Writes(a) ==> Get(r, k) == Get(s, k))
            && (IsApprovalResult(a) ==> (Truthy(Get(r, "action")) <==> !Truthy(Get(s, "action"))))
            && (a.ApproveSuccess? ==> Get(r, "showSuccessapprove") == Bool(true))
            && (a.ApproveFail? ==> Get(r, "showErrorsapprove") == Bool(true) && Get(r, "error") == a.error)
            && (a.GetPendingListSuccess? ==> Get(r, "pendingAcceptBankCashList") == a.response)
            && (a.GetPendingListFail? ==> Get(r, "error") == a.error)
            && (a.ChangeStoreData? ==> Get(r, a.key) == a.value)
  {
    var draft := if state.None? then InitialState else state.value;
    match a
    case GetPendingListSuccess(response) => draft["pendingAcceptBankCashList" := response]
    case GetPendingListFail(error) => draft["error" := error]
    case ApproveSuccess =>
      draft["action" := Not(Get(draft, "action"))]["showSuccessapprove" := Bool(true)]
    case ApproveFail(error) =>
      draft["action" := Not(Get(draft, "action"))]["error" := error]["showErrorsapprove" := Bool(true)]
    case ChangeStoreData(key, value) => draft[key := value]
    case Unhandled => draft
  }

  /** The state after dispatching `actions` in order. */
  function Run(state: Option<Store>, actions: seq<Action>): Store
    decreases |actions|
  {
    if |actions| == 0 then (if state.None? then InitialState else state.value)
    else Run(Some(Reduce(state, actions[0])), actions[1..])
  }

  /** Whether some action in the sequence sets `key` directly. */
  predicate SetsKey(actions: seq<Action>, key: string) {
    exists i :: 0 <= i < |actions| && actions[i].ChangeStoreData? && actions[i].key == key
  }

  /** The number of approval answers in the sequence. */
  function ApprovalCount(actions: seq<Action>): nat {
    if |actions| == 0 then 0
    else (if IsApprovalResult(actions[0]) then 1 else 0) + ApprovalCount(actions[1..])
  }

  /** The `action` flag is a toggle: unless something sets it directly, after
      a run of actions it is the starting flag flipped once per approval
      answer, so an even number of answers restores it. */
  lemma {:induction false} ActionFlagCountsApprovals(state: Option<Store>, actions: seq<Action>)
    requires !SetsKey(actions, "action")
    ensures Truthy(Get(Run(state, actions), "action"))
            <==> (Truthy(Get(if state.None? then InitialState else state.value, "action"))
                  != (ApprovalCount(actions) % 2 == 1))
    decreases |actions|
  {
    if |actions| != 0 {
      var tail := actions[1..];
      assert !SetsKey(tail, "action") by {
        forall i | 0 <= i < |tail|
          ensures !(tail[i].ChangeStoreData? && tail[i].key == "action")
        {
          assert tail[i] == actions[i + 1];
        }
      }
      ActionFlagCountsApprovals(Some(Reduce(state, actions[0])), tail);
    }
  }

  /** Two approval answers in a row restore a boolean `action` flag. */
  lemma TwoApprovalsRestoreAction(s: Store, first: Action, second: Action)
    requires IsApprovalResult(first) && IsApprovalResult(second)
    requires Get(s, "action").Bool?
    ensures Get(Reduce(Some(Reduce(Some(s), first)), second), "action") == Get(s, "action")
  {
  }

  /** Once an approval succeeded, the success pop-up flag stays set for the
      rest of the run, unless something sets it directly: no action of this
      store clears it. */
  lemma {:induction false} SuccessFlagSticks(state: Option<Store>, actions: seq<Action>, i: int)
    requires 0 <= i < |actions| && actions[i].ApproveSuccess?
    requires !SetsKey(actions, "showSuccessapprove")
    ensures Get(Run(state, actions), "showSuccessapprove") == Bool(true)
    decreases |actions|
  {
    var next := Some(Reduce(state, actions[0]));
    var tail := actions[1..];
    assert !SetsKey(tail, "showSuccessapprove") by {
      forall j | 0 <= j < |tail|
        ensures !(tail[j].ChangeStoreData? && tail[j].key == "showSuccessapprove")
      {
        assert tail[j] == actions[j + 1];
      }
    }
    if i == 0 {
      SuccessFlagStaysSet(next, tail);
    } else {
      SuccessFlagSticks(next, tail, i - 1);
    }
  }

  /** A set success flag survives every action but a direct write. */
  lemma {:induction false} SuccessFlagStaysSet(state: Option<Store>, actions: seq<Action>)
    requires state.Some? && Get(state.value, "showSuccessapprove") == Bool(true)
    requires !SetsKey(actions, "showSuccessapprove")
    ensures Get(Run(state, actions), "showSuccessapprove") == Bool(true)
    decreases |actions|
  {
    if |actions| != 0 {
      var tail := actions[1..];
      assert !SetsKey(tail, "showSuccessapprove") by {
        forall j | 0 <= j < |tail|
          ensures !(tail[j].ChangeStoreData? && tail[j].key == "showSuccessapprove")
        {
          assert tail[j] == actions[j + 1];
        }
      }
      SuccessFlagStaysSet(Some(Reduce(state, actions[0])), tail);
    }
  }
}
