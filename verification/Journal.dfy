/** A ghost record of effects, in the order in which they happen. */
module Journal {
  import opened Wrappers

  /** Reading retained bytes notes whether they were on record at that moment. */
  datatype Action =
    | Retain(bytes: Bytes)
    | Interpret(bytes: Bytes, onRecord: bool)
    | Fetch(url: string)
    | Check(bytes: Bytes, onRecord: bool)
    | Decode(bytes: Bytes, onRecord: bool)

  class EffectJournal {
    ghost var events: seq<Action>

    constructor ()
      ensures events == []
    {
      events := [];
    }

    ghost method Append(action: Action)
      modifies this
      ensures events == old(events) + [action]
    {
      events := events + [action];
    }
  }
}
