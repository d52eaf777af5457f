/**
 * The checklist of the scavenger session: a fixed, ordered list of
 * objectives, each a name and a `found` flag (script.js, `Game.state`).
 */
module Objectives {
  import opened Wrappers

  datatype Objective = Objective(name: string, found: bool)

  /** The checklist a session starts with: bottle, cup and book, none found. */
  function Initial(): (objs: seq<Objective>)
    ensures |objs| == 3
    ensures NamesDistinct(objs)
    ensures forall i :: 0 <= i < |objs| ==> !objs[i].found
  {
    [Objective("bottle", false), Objective("cup", false), Objective("book", false)]
  }

  /** No two objectives share a name, so a name identifies an objective. */
  predicate NamesDistinct(objs: seq<Objective>) {
    forall i, j :: 0 <= i < j < |objs| ==> objs[i].name != objs[j].name
  }

  /** `objectives.every(o => o.found)`: true of the empty list, as in JavaScript. */
  predicate AllFound(objs: seq<Objective>) {
    forall i :: 0 <= i < |objs| ==> objs[i].found
  }

  /**
   * The lookup of `Game.salvage`, `objectives.find(o => o.name === name)`,
   * as the index of the objective it returns: the first objective named
   * `name`, or `None` when there is none.
   */
  function IndexOf(objs: seq<Objective>, name: string): (r: Option<nat>)
    ensures r.Some? ==> r.value < |objs| && objs[r.value].name == name
    ensures r.Some? ==> forall j :: 0 <= j < r.value ==> objs[j].name != name
    ensures r.None? <==> forall j :: 0 <= j < |objs| ==> objs[j].name != name
  {
    if |objs| == 0 then None
    else if objs[0].name == name then Some(0)
    else match IndexOf(objs[1..], name)
      case None => None
      case Some(i) => Some(i + 1)
  }
}
