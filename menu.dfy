/** The menu: which action each typed choice selects. */
module Menu {

  datatype Action = AddTask | ViewTasks | MarkComplete | DeleteTask | SaveAndExit | InvalidChoice

  /** The fixed table from "1".."5" to the five actions, with the invalid-option action for anything else. */
  function Dispatch(choice: string): (a: Action)
    ensures a == AddTask <==> choice == "1"
    ensures a == ViewTasks <==> choice == "2"
    ensures a == MarkComplete <==> choice == "3"
    ensures a == DeleteTask <==> choice == "4"
    ensures a == SaveAndExit <==> choice == "5"
    ensures a == InvalidChoice <==> choice !in ["1", "2", "3", "4", "5"]
  {
    if choice == "1" then AddTask
    else if choice == "2" then ViewTasks
    else if choice == "3" then MarkComplete
    else if choice == "4" then DeleteTask
    else if choice == "5" then SaveAndExit
    else InvalidChoice
  }

  /** The menu key of an action; typing it selects that action. */
  function Key(a: Action): (k: string)
    requires a != InvalidChoice
    ensures Dispatch(k) == a
  {
    match a
    case AddTask => "1"
    case ViewTasks => "2"
    case MarkComplete => "3"
    case DeleteTask => "4"
    case SaveAndExit => "5"
  }

  /** Every valid choice is the key of the action it selects, so no two keys share an action. */
  lemma KeyOfDispatch(choice: string)
    requires Dispatch(choice) != InvalidChoice
    ensures Key(Dispatch(choice)) == choice
  {
  }
}
