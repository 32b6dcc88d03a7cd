/** The store of the administrator's energy screen
    (`managerBuildingsHostReducer`): the list of hosts and the error pop-up. */
module ManagerEnergyHostAdmin {
  import opened Results
  import opened Json

  datatype Action =
    | GetMotelListSuccess(response: Value)
    | GetMotelListFail(error: Value)
    | ChangeStoreData(key: string, value: Value)
    | Unhandled  // any other action type

  const InitialState: Store := map["hosts" := Arr([]), "error" := Obj(map[])]

  /** The keys an action may write, by the action's type. */
  function Writes(a: Action): set<string> {
    match a
    case GetMotelListSuccess(_) => {"hosts"}
    case GetMotelListFail(_) => {"error", "showErrorPopup"}
    case ChangeStoreData(key, _) => {key}
    case Unhandled => {}
  }

  /** The reducer; an absent state is the initial state. A success action
      without a response throws while reading `response.data`. */
  function Reduce(state: Option<Store>, a: Action): (r: Result<Store, TypeError>)
    ensures r.Err? <==> a.GetMotelListSuccess? && (a.response == Undefined || a.response == Null)
    ensures r.Ok? ==>
              var s := if state.None? then InitialState else state.value;
              && r.value.Keys == s.Keys + Writes(a)
              && (forall k :: k !in Writes(a) ==> Get(r.value, k) == Get(s, k))
              && (a.GetMotelListSuccess? && a.response.Obj? ==>
                    Get(r.value, "hosts") == Get(a.response.fields, "data"))
              && (a.GetMotelListFail? ==>
                    Get(r.value, "error") == a.error && Get(r.value, "showErrorPopup") == Bool(true))
              && (a.ChangeStoreData? ==> Get(r.value, a.key) == a.value)
  {
    var draft := if state.None? then InitialState else state.value;
    match a
    case GetMotelListSuccess(response) =>
      (match Property(response, "data")
       case Ok(data) => Ok(draft["hosts" := data])
       case Err(e) => Err(e))
    case GetMotelListFail(error) => Ok(draft["error" := error]["showErrorPopup" := Bool(true)])
    case ChangeStoreData(key, value) => Ok(draft[key := value])
    case Unhandled => Ok(draft)
  }

  /** Fetching the list again replaces it: two successes leave the state the
      second alone would. */
  lemma LatestListWins(s: Store, first: Value, second: Value)
    requires Reduce(Some(s), GetMotelListSuccess(first)).Ok?
    ensures var once := Reduce(Some(s), GetMotelListSuccess(first)).value;
            Reduce(Some(once), GetMotelListSuccess(second)) == Reduce(Some(s), GetMotelListSuccess(second))
  {
    var once := Reduce(Some(s), GetMotelListSuccess(first)).value;
    if Property(second, "data").Ok? {
      var data := Property(second, "data").value;
      assert once["hosts" := data] == s["hosts" := data] by {
        assert once == s["hosts" := Property(first, "data").value];
      }
    }
  }

  /** A later successful fetch does not close the error pop-up: nothing but a
      direct write clears `showErrorPopup`. */
  lemma PopupSurvivesLaterSuccess(s: Store, error: Value, response: Value)
    requires Reduce(Some(Reduce(Some(s), GetMotelListFail(error)).value), GetMotelListSuccess(response)).Ok?
    ensures var failed := Reduce(Some(s), GetMotelListFail(error)).value;
            Get(Reduce(Some(failed), GetMotelListSuccess(response)).value, "showErrorPopup") == Bool(true)
  {
  }
}
