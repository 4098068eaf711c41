/**
 The outside world of a running loop.  Everything a callback can do is a function
 of the events so far, so the event log stands for the world's state.
 */
module Callbacks {
  import opened Values
  import opened Ast

  datatype Event =
    | Called(callee: Callee, args: seq<Value>)
    | FieldRead(owner: Name, field: Name)
    | FieldWritten(owner: Name, field: Name, value: Value)
    | IndexRead(name: Name, slot: int, index: Value)
    | IndexChecked(name: Name, slot: int, index: Value)
    | IndexWritten(name: Name, slot: int, index: Value, value: Value)

  type Log = seq<Event>

  /** `raised` is the error a callback reports next to the value it returns and the events it leaves behind. */
  datatype Reply = Reply(raised: bool, value: Value, log: Log)

  type Oracle = (Log, Event) -> Reply

  datatype World = World(ops: FloatOps, reply: Oracle)

  /** Wherever `w` answers without an error, `u` gives the same answer. */
  ghost predicate Covers(u: World, w: World) {
    u.ops == w.ops && forall log, e :: !w.reply(log, e).raised ==> u.reply(log, e) == w.reply(log, e)
  }

  /** The callbacks `u` of the compiled tier can stand in for the walker's callbacks `w`. */
  ghost predicate Serves(u: World, w: World) {
    ExactInts(w.ops) && Covers(u, w)
  }
}
