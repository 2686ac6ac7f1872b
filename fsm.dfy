/**
 * aiogram's per-user FSMContext: the current state of the conversation
 * and the data stored along the way.
 */
module Fsm {
  import opened Wrappers

  /** The states of the four wizards: SessionCreation, RegistrationStates, EditProfileStates and AdminStates. */
  datatype State =
    | ChoosingGame | SettingDate | SettingTime | SettingMaxPlayers
    | WaitingForName | WaitingForAge
    | ChoosingField | EditingName | EditingAge
    | WaitingForUserId | WaitingForUserIdUnblock | WaitingForBlockReason

  /** A stored value: the handlers store texts, integers and a possibly missing username. */
  datatype Value = Str(s: string) | Int(i: int) | Null

  class FsmContext {
    var state: Option<State>
    var data: map<string, Value>

    constructor()
      ensures state == None && data == map[]
    {
      state := None;
      data := map[];
    }

    /** state.set_state(s) */
    method SetState(s: State)
      modifies this
      ensures state == Some(s) && data == old(data)
    {
      state := Some(s);
    }

    /** state.update_data(key=value) */
    method UpdateData(key: string, v: Value)
      modifies this
      ensures data == old(data)[key := v] && state == old(state)
    {
      data := data[key := v];
    }

    /** state.clear(): no state and no data. */
    method Clear()
      modifies this
      ensures state == None && data == map[]
    {
      state := None;
      data := map[];
    }
  }
}
