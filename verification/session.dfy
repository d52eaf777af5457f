/**
 * The session state of the scavenger game and what a salvage does to it
 * (script.js, `Game.state`, `Game.salvage`, `Game.checkWinCondition`,
 * and the scan button lock of `Game.scanFrame`).
 */
module Session {
  import opened Wrappers
  import opened Objectives
  import Matching

  /** `Game.state`: the checklist and the inventory (`found_items`). */
  datatype State = State(objectives: seq<Objective>, foundItems: seq<string>)

  /** The state a session starts in: the initial checklist and an empty inventory. */
  function Start(): (s: State)
    ensures Consistent(s)
    ensures s.foundItems == [] && !AllFound(s.objectives)
  {
    var s := State(Initial(), []);
    assert !Initial()[0].found;
    s
  }

  predicate NoDuplicates(items: seq<string>) {
    forall i, j :: 0 <= i < j < |items| ==> items[i] != items[j]
  }

  /** Some objective named `n` is marked found. */
  ghost predicate IsFoundName(objs: seq<Objective>, n: string) {
    exists i :: 0 <= i < |objs| && objs[i].name == n && objs[i].found
  }

  /** The names of the objectives not yet found. */
  function UnfoundNames(objs: seq<Objective>): set<string> {
    if |objs| == 0 then {}
    else (if objs[0].found then {} else {objs[0].name}) + UnfoundNames(objs[1..])
  }

  /** A name is open exactly when some objective of that name is not yet found. */
  lemma {:induction false} UnfoundNamesMembers(objs: seq<Objective>, n: string)
    ensures n in UnfoundNames(objs) <==> exists i :: 0 <= i < |objs| && !objs[i].found && objs[i].name == n
  {
    if |objs| > 0 {
      UnfoundNamesMembers(objs[1..], n);
      if exists i :: 0 <= i < |objs| && !objs[i].found && objs[i].name == n {
        var i :| 0 <= i < |objs| && !objs[i].found && objs[i].name == n;
        if i > 0 {
          assert objs[1..][i - 1] == objs[i];
        }
      }
    }
  }

  /**
   * The inventory mirrors the checklist: names are unique, the inventory
   * has no repeats, every inventory entry names a found objective, and
   * every found objective's name is in the inventory.
   */
  ghost predicate Consistent(s: State) {
    && NamesDistinct(s.objectives)
    && NoDuplicates(s.foundItems)
    && (forall k :: 0 <= k < |s.foundItems| ==> IsFoundName(s.objectives, s.foundItems[k]))
    && (forall i :: 0 <= i < |s.objectives| && s.objectives[i].found ==> s.objectives[i].name in s.foundItems)
  }

  /**
   * `Game.salvage(objective)` on the state alone: look the name up; if the
   * objective exists and is not yet found, mark it found and append its
   * name to the inventory; otherwise leave everything as it is.
   */
  function Salvaged(s: State, name: string): (r: State)
    ensures |r.objectives| == |s.objectives|
    ensures r.foundItems == if r.objectives == s.objectives then s.foundItems else s.foundItems + [name]
  {
    match IndexOf(s.objectives, name)
    case None => s
    case Some(i) =>
      if s.objectives[i].found then s
      else State(s.objectives[i := s.objectives[i].(found := true)], s.foundItems + [s.objectives[i].name])
  }

  /**
   * A salvage never reorders, renames or unflags objectives, and the only
   * objective it may change is one named `name`.
   */
  lemma SalvageFrame(s: State, name: string)
    ensures var r := Salvaged(s, name);
      forall i :: 0 <= i < |s.objectives| ==>
        && r.objectives[i].name == s.objectives[i].name
        && (s.objectives[i].found ==> r.objectives[i].found)
        && (r.objectives[i] != s.objectives[i] ==> s.objectives[i].name == name && r.objectives[i].found)
  {
  }

  /** Salvaging the (first) objective of that name while it is open flags it and appends exactly its name. */
  lemma SalvageOpen(s: State, name: string, i: nat)
    requires i < |s.objectives| && s.objectives[i].name == name && !s.objectives[i].found
    requires forall j :: 0 <= j < i ==> s.objectives[j].name != name
    ensures Salvaged(s, name) == State(s.objectives[i := Objective(name, true)], s.foundItems + [name])
  {
  }

  /** Salvaging a name that is absent, or whose objective is already found, changes nothing. */
  lemma SalvageClosed(s: State, name: string)
    requires forall i :: 0 <= i < |s.objectives| && s.objectives[i].name == name ==> s.objectives[i].found
    ensures Salvaged(s, name) == s
  {
  }

  /** A second salvage of the same name is a no-op. */
  lemma SalvageIdempotent(s: State, name: string)
    ensures Salvaged(Salvaged(s, name), name) == Salvaged(s, name)
  {
  }

  /** Flagging the open objective at `i` removes exactly its name from the open names. */
  lemma {:induction false} UnfoundNamesAfterClosing(objs: seq<Objective>, i: nat)
    requires NamesDistinct(objs) && i < |objs| && !objs[i].found
    ensures UnfoundNames(objs[i := objs[i].(found := true)]) == UnfoundNames(objs) - {objs[i].name}
  {
    var closed := objs[i := objs[i].(found := true)];
    assert closed[1..] == if i == 0 then objs[1..] else objs[1..][i - 1 := objs[i].(found := true)];
    if i == 0 {
      UnfoundNamesMembers(objs[1..], objs[0].name);
    } else {
      UnfoundNamesAfterClosing(objs[1..], i - 1);
    }
  }

  /**
   * With unique names, a salvage closes exactly the named objective if it
   * was open: the open names lose `name`, and the inventory grows by `name`
   * exactly when `name` was open.
   */
  lemma SalvageClosesName(s: State, name: string)
    requires NamesDistinct(s.objectives)
    ensures UnfoundNames(Salvaged(s, name).objectives) == UnfoundNames(s.objectives) - {name}
    ensures Salvaged(s, name).foundItems ==
      s.foundItems + if name in UnfoundNames(s.objectives) then [name] else []
    ensures NamesDistinct(Salvaged(s, name).objectives)
  {
    var objs := s.objectives;
    UnfoundNamesMembers(objs, name);
    match IndexOf(objs, name)
    case None =>
    case Some(i) =>
      if !objs[i].found {
        UnfoundNamesAfterClosing(objs, i);
      }
  }

  /** Salvage keeps the inventory an exact, repeat-free record of the found objectives. */
  lemma SalvagePreservesConsistent(s: State, name: string)
    requires Consistent(s)
    ensures Consistent(Salvaged(s, name))
  {
    var objs := s.objectives;
    match IndexOf(objs, name)
    case None =>
    case Some(i) =>
      if !objs[i].found {
        var r := Salvaged(s, name);
        assert r.objectives == objs[i := objs[i].(found := true)];
        assert r.foundItems == s.foundItems + [name];
        assert !IsFoundName(objs, name);
        forall k | 0 <= k < |r.foundItems|
          ensures IsFoundName(r.objectives, r.foundItems[k])
        {
          if k < |s.foundItems| {
            assert IsFoundName(objs, s.foundItems[k]);
            var j :| 0 <= j < |objs| && objs[j].name == s.foundItems[k] && objs[j].found;
            assert r.objectives[j].found;
          } else {
            assert r.objectives[i].found && r.objectives[i].name == r.foundItems[k];
          }
        }
        forall j | 0 <= j < |objs| && r.objectives[j].found
          ensures r.objectives[j].name in r.foundItems
        {
          if j != i {
            assert objs[j] == r.objectives[j];
          }
        }
      }
  }

  /** `checkWinCondition`: every objective found is the same as every objective's name in the inventory. */
  lemma WinIffInventoryComplete(s: State)
    requires Consistent(s)
    ensures AllFound(s.objectives) <==>
      forall i :: 0 <= i < |s.objectives| ==> s.objectives[i].name in s.foundItems
  {
  }

  /** A session driven by the salvage clicks `names`, in order. */
  function Replay(s: State, names: seq<string>): State
    decreases |names|
  {
    if names == [] then s else Replay(Salvaged(s, names[0]), names[1..])
  }

  /** The first occurrence, in order, of each name of `names` that lies in `open`. */
  function FirstOccurrences(names: seq<string>, open: set<string>): seq<string>
  {
    if names == [] then []
    else if names[0] in open then [names[0]] + FirstOccurrences(names[1..], open - {names[0]})
    else FirstOccurrences(names[1..], open)
  }

  /**
   * The inventory `inventory` after the clicks `names` when exactly the
   * names in `open` are still open: each click on an open name appends it
   * and closes it; any other click changes nothing.
   */
  function Recorded(inventory: seq<string>, names: seq<string>, open: set<string>): seq<string>
    decreases |names|
  {
    if names == [] then inventory
    else if names[0] in open then Recorded(inventory + [names[0]], names[1..], open - {names[0]})
    else Recorded(inventory, names[1..], open)
  }

  /** Recording appends the first occurrence of each open name, in order. */
  lemma {:induction false} RecordedAppendsFirstOccurrences(inventory: seq<string>, names: seq<string>, open: set<string>)
    ensures Recorded(inventory, names, open) == inventory + FirstOccurrences(names, open)
    decreases |names|
  {
    if names != [] {
      var n, rest := names[0], names[1..];
      if n in open {
        RecordedAppendsFirstOccurrences(inventory + [n], rest, open - {n});
        assert (inventory + [n]) + FirstOccurrences(rest, open - {n})
            == inventory + ([n] + FirstOccurrences(rest, open - {n}));
      } else {
        RecordedAppendsFirstOccurrences(inventory, rest, open);
      }
    }
  }

  /** A replay of salvage clicks records them as `Recorded` says. */
  lemma {:induction false} ReplayRecords(s: State, names: seq<string>)
    requires NamesDistinct(s.objectives)
    ensures Replay(s, names).foundItems == Recorded(s.foundItems, names, UnfoundNames(s.objectives))
    decreases |names|
  {
    if names != [] {
      var n := names[0];
      SalvageClosesName(s, n);
      ReplayRecords(Salvaged(s, n), names[1..]);
      if n !in UnfoundNames(s.objectives) {
        assert UnfoundNames(s.objectives) - {n} == UnfoundNames(s.objectives);
      }
    }
  }

  /**
   * The inventory records salvages in order: after any sequence of salvage
   * clicks it is the old inventory followed by the first click on each
   * objective that was still open.
   */
  lemma ReplayInventory(s: State, names: seq<string>)
    requires NamesDistinct(s.objectives)
    ensures Replay(s, names).foundItems == s.foundItems + FirstOccurrences(names, UnfoundNames(s.objectives))
  {
    ReplayRecords(s, names);
    RecordedAppendsFirstOccurrences(s.foundItems, names, UnfoundNames(s.objectives));
  }

  /** Any sequence of salvage clicks keeps the inventory consistent with the checklist. */
  lemma {:induction false} ReplayConsistent(s: State, names: seq<string>)
    requires Consistent(s)
    ensures Consistent(Replay(s, names))
    decreases |names|
  {
    if names != [] {
      SalvagePreservesConsistent(s, names[0]);
      ReplayConsistent(Salvaged(s, names[0]), names[1..]);
    }
  }

  /**
   * An objective that the results panel offers for salvage is open, so
   * clicking its row while the checklist is unchanged always salvages it.
   */
  lemma OfferedRowSalvages(s: State, caption: string, percent: int)
    requires NamesDistinct(s.objectives)
    requires Matching.Offer(s.objectives, caption, percent).Some?
    ensures var n := s.objectives[Matching.Offer(s.objectives, caption, percent).value].name;
      Salvaged(s, n).foundItems == s.foundItems + [n]
  {
    var n := s.objectives[Matching.Offer(s.objectives, caption, percent).value].name;
    SalvageClosesName(s, n);
    UnfoundNamesMembers(s.objectives, n);
  }

  /**
   * The live session (`Game`): the checklist and inventory it updates in
   * place, and the scan button lock.
   */
  class Game {
    var objectives: seq<Objective>
    var foundItems: seq<string>
    /** `UI.scanButton.disabled`: a click on the scan button is ignored while it is set. */
    var scanDisabled: bool
    /** A scan has locked the button and is awaiting the classifier. */
    var scanPending: bool

    function Snapshot(): State
      reads this
    {
      State(objectives, foundItems)
    }

    /**
     * The inventory mirrors the checklist; a pending scan holds the lock;
     * a completed checklist keeps scanning disabled.
     */
    ghost predicate Valid()
      reads this
    {
      && Consistent(Snapshot())
      && (scanPending ==> scanDisabled)
      && (AllFound(objectives) ==> scanDisabled)
    }

    constructor ()
      ensures Valid()
      ensures Snapshot() == Start()
      ensures !scanDisabled && !scanPending
    {
      objectives := Initial();
      foundItems := [];
      scanDisabled := false;
      scanPending := false;
      assert !Initial()[0].found;
    }

    /** `checkWinCondition`: when every objective is found, disable scanning. */
    method CheckWinCondition()
      modifies this`scanDisabled
      ensures scanDisabled == (old(scanDisabled) || AllFound(objectives))
    {
      var allFound := AllFound(objectives);
      if allFound {
        scanDisabled := true;
      }
    }

    /** `salvage(objective)`, applied to the objective named `name`. */
    method Salvage(name: string)
      requires Valid()
      modifies this
      ensures Valid()
      ensures Snapshot() == Salvaged(old(Snapshot()), name)
      ensures scanPending == old(scanPending)
      ensures scanDisabled == (old(scanDisabled) || AllFound(objectives))
    {
      var obj := IndexOf(objectives, name);
      if obj.Some? && !objectives[obj.value].found {
        var i := obj.value;
        objectives := objectives[i := objectives[i].(found := true)];
        foundItems := foundItems + [objectives[i].name];
        SalvagePreservesConsistent(old(Snapshot()), name);
        CheckWinCondition();
      }
    }

    /**
     * A click on the scan button: ignored while the button is disabled;
     * otherwise `scanFrame` disables it and starts awaiting the classifier.
     */
    method BeginScan() returns (started: bool)
      requires Valid()
      modifies this
      ensures Valid()
      ensures Snapshot() == old(Snapshot())
      ensures started == !old(scanDisabled)
      ensures started ==> scanDisabled && scanPending
      ensures !started ==> scanDisabled == old(scanDisabled) && scanPending == old(scanPending)
    {
      started := !scanDisabled;
      if started {
        scanDisabled := true;
        scanPending := true;
      }
    }

    /**
     * The rest of `scanFrame` once the classifier has answered `results`
     * (empty when it failed): fill the results panel, release the lock, and
     * keep scanning disabled if the checklist was completed meanwhile.
     */
    method FinishScan(results: seq<Matching.Prediction>) returns (d: Matching.Display)
      requires Valid() && scanPending
      modifies this`scanDisabled, this`scanPending
      ensures Valid()
      ensures !scanPending
      ensures scanDisabled == AllFound(objectives)
      ensures d.Interference? <==> |results| == 0
      ensures d.Listed? ==> |d.rows| == |results|
      ensures d.Listed? ==> forall k :: 0 <= k < |results| ==> d.rows[k] == Matching.RowFor(objectives, results[k])
    {
      d := Matching.DisplayScanResults(objectives, results);
      scanDisabled := AllFound(objectives);
      scanPending := false;
    }

    /** `scanFrame` as written: the lock is released unconditionally. */
    method FinishScanAsWritten(results: seq<Matching.Prediction>) returns (d: Matching.Display)
      requires Valid() && scanPending
      modifies this`scanDisabled, this`scanPending
      ensures Consistent(Snapshot())
      ensures !AllFound(objectives) ==> Valid()
      ensures !scanPending && !scanDisabled
      ensures d.Interference? <==> |results| == 0
      ensures d.Listed? ==> |d.rows| == |results|
      ensures d.Listed? ==> forall k :: 0 <= k < |results| ==> d.rows[k] == Matching.RowFor(objectives, results[k])
    {
      d := Matching.DisplayScanResults(objectives, results);
      scanDisabled := false;
      scanPending := false;
    }
  }

  /** Salvaging bottle, cup and book, in that order, completes the starting checklist. */
  lemma StartFullySalvaged(first: string, second: string, third: string)
    requires first == "bottle" && second == "cup" && third == "book"
    ensures AllFound(Salvaged(Salvaged(Salvaged(Start(), first), second), third).objectives)
  {
    var s0 := Start();
    SalvageOpen(s0, first, 0);
    var s1 := Salvaged(s0, first);
    SalvageOpen(s1, second, 1);
    var s2 := Salvaged(s1, second);
    SalvageOpen(s2, third, 2);
  }

  /**
   * The opening of the trace below: a fresh session scans once, the
   * classifier answers "bottle", "cup" and "book" at 90%, and the panel's
   * rows offer those three objectives. Then a second scan is started and
   * is awaiting the classifier, with those rows still on the panel.
   */
  method ScanThenRescan() returns (g: Game, rows: seq<Matching.Row>)
    ensures fresh(g) && g.Valid() && g.scanPending
    ensures g.Snapshot() == Start()
    ensures |rows| == 3
    ensures rows[0].offer == Some("bottle") && rows[1].offer == Some("cup") && rows[2].offer == Some("book")
  {
    g := new Game();
    var started := g.BeginScan();
    var results := [Matching.Prediction("bottle", 90), Matching.Prediction("cup", 90), Matching.Prediction("book", 90)];
    var d := g.FinishScanAsWritten(results);
    Matching.StartingRowsOffered(results, d);
    rows := d.rows;
    started := g.BeginScan();
  }

  /**
   * With `scanFrame` as written: while the second scan of `ScanThenRescan`
   * awaits the classifier, the player clicks the three offered rows left on
   * the panel by the first scan. When that scan finishes, every objective is
   * found and the scan button is enabled again.
   */
  method CompletionDuringScan() returns (complete: bool, disabled: bool)
    ensures complete && !disabled
  {
    var g, rows := ScanThenRescan();
    var first, second, third := rows[0].offer.value, rows[1].offer.value, rows[2].offer.value;
    g.Salvage(first);
    g.Salvage(second);
    g.Salvage(third);
    StartFullySalvaged(first, second, third);
    var d := g.FinishScanAsWritten([]);
    complete := AllFound(g.objectives);
    disabled := g.scanDisabled;
  }
}
