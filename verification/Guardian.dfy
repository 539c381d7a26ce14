/**
 * Guardian event ingestion: on-chain emergency actions, the policy state
 * derived from them, superadmin overrides and the persisted action table.
 */
module Guardian {
  import opened Common

  datatype Kind = Pause | Freeze | Blacklist

  datatype Key = Key(kind: Kind, target: string)

  /** Position on chain; `index` is the event's index inside its ledger. */
  datatype Pos = Pos(ledger: int, index: int)

  datatype Event = Event(id: string, key: Key, active: bool, pos: Pos, txHash: string, closedAt: string)

  datatype Record = Record(id: string, key: Key, txHash: string, pos: Pos, activatedAt: string)

  datatype Ref = Ref(since: string, reason: string, actionId: string, txHash: string)

  datatype Row = Row(record: Record, active: bool)

  /** The order of the chain: by ledger, then by index. */
  ghost predicate Before(a: Pos, b: Pos) {
    a.ledger < b.ledger || (a.ledger == b.ledger && a.index < b.index)
  }

  predicate IsAfter(a: Pos, b: Pos): (after: bool)
    ensures after <==> Before(b, a)
  {
    if a.ledger != b.ledger then a.ledger > b.ledger else a.index > b.index
  }

  function ToRecord(e: Event): Record {
    Record(e.id, e.key, e.txHash, e.pos, e.closedAt)
  }

  /** What the decoder lets through: a pause has no target, the other kinds always have one. */
  predicate Decodable(k: Key) {
    k.kind.Pause? <==> k.target == ""
  }

  const ALL_PARAMS := "*"

  // ---------------------------------------------------------------- derived policy

  datatype Policy = Policy(pause: Option<Ref>, suspended: map<string, Ref>, frozen: map<string, Ref>)

  function Toggle(m: map<string, Ref>, key: string, active: bool, ref: Ref): map<string, Ref> {
    if active then m[key := ref] else m - {key}
  }

  function RefOf(r: Record, reason: string): Ref {
    Ref(r.activatedAt, reason, r.id, r.txHash)
  }

  function Project(p: Policy, r: Record, active: bool, reason: string): Policy {
    var ref := RefOf(r, reason);
    match r.key.kind
    case Pause => p.(pause := if active then Some(ref) else None)
    case Freeze => p.(frozen := Toggle(p.frozen, if r.key.target == "" then ALL_PARAMS else r.key.target, active, ref))
    case Blacklist => p.(suspended := Toggle(p.suspended, r.key.target, active, ref))
  }

  class GuardianStateService {
    var pause: Option<Ref>
    var suspended: map<string, Ref>
    var frozen: map<string, Ref>

    ghost function View(): Policy
      reads this
    {
      Policy(pause, suspended, frozen)
    }

    constructor ()
      ensures View() == Policy(None, map[], map[])
    {
      pause, suspended, frozen := None, map[], map[];
    }

    method SetPause(active: bool, ref: Ref)
      modifies this
      ensures View() == old(View()).(pause := if active then Some(ref) else None)
    {
      pause := if active then Some(ref) else None;
    }

    method SetSolverSuspended(address: string, active: bool, ref: Ref)
      modifies this
      ensures View() == old(View()).(suspended := Toggle(old(suspended), address, active, ref))
    {
      if active { suspended := suspended[address := ref]; } else { suspended := suspended - {address}; }
    }

    method SetParamFrozen(key: string, active: bool, ref: Ref)
      modifies this
      ensures View() == old(View()).(frozen := Toggle(old(frozen), key, active, ref))
    {
      if active { frozen := frozen[key := ref]; } else { frozen := frozen - {key}; }
    }

    method ProjectAction(r: Record, active: bool, reason: string)
      modifies this
      ensures View() == Project(old(View()), r, active, reason)
    {
      var ref := RefOf(r, reason);
      match r.key.kind
      case Pause => SetPause(active, ref);
      case Freeze => SetParamFrozen(if r.key.target == "" then ALL_PARAMS else r.key.target, active, ref);
      case Blacklist => SetSolverSuspended(r.key.target, active, ref);
    }
  }

  // ---------------------------------------------------------------- the active map and the table

  datatype Core = Core(active: map<Key, Record>, seen: set<string>)

  function ApplyCore(c: Core, e: Event): Core {
    if e.id in c.seen then c
    else
      var seen := c.seen + {e.id};
      var blocked := e.key in c.active && !IsAfter(e.pos, c.active[e.key].pos);
      if e.active then
        if blocked then c.(seen := seen) else Core(c.active[e.key := ToRecord(e)], seen)
      else
        if e.key !in c.active || blocked then c.(seen := seen) else Core(c.active - {e.key}, seen)
  }

  /** A clear removes the activation under its key if and only if it is of a later ledger, or of the same one at a larger index. */
  lemma ClearLiftsIff(c: Core, e: Event)
    requires !e.active && e.id !in c.seen && e.key in c.active
    ensures var p, q := e.pos, c.active[e.key].pos;
            ApplyCore(c, e).active == if p.ledger > q.ledger || (p.ledger == q.ledger && p.index > q.index) then c.active - {e.key} else c.active
  {
  }

  /** An activation takes its key if and only if nothing is there or it comes after what is. */
  lemma ActivationTakesIff(c: Core, e: Event)
    requires e.active && e.id !in c.seen
    ensures ApplyCore(c, e).active
            == if e.key in c.active && (e.pos.ledger < c.active[e.key].pos.ledger
                                        || (e.pos.ledger == c.active[e.key].pos.ledger && e.pos.index <= c.active[e.key].pos.index))
               then c.active else c.active[e.key := ToRecord(e)]
  {
  }

  function ApplyPolicy(c: Core, p: Policy, e: Event): Policy {
    var blocked := e.key in c.active && !IsAfter(e.pos, c.active[e.key].pos);
    if e.id in c.seen || blocked then p
    else if e.active then Project(p, ToRecord(e), true, "guardian action")
    else if e.key in c.active then Project(p, c.active[e.key], false, "guardian cleared (tx " + e.txHash + ")")
    else p
  }

  function Upsert(rows: seq<Row>, r: Record): seq<Row> {
    if exists i :: 0 <= i < |rows| && rows[i].record.id == r.id then rows else rows + [Row(r, true)]
  }

  function Deactivate(rows: seq<Row>, id: string): (out: seq<Row>)
    ensures |out| == |rows|
    ensures forall i :: 0 <= i < |rows| ==>
              out[i] == if rows[i].record.id == id then rows[i].(active := false) else rows[i]
  {
    seq(|rows|, i requires 0 <= i < |rows| => if rows[i].record.id == id then rows[i].(active := false) else rows[i])
  }

  function ApplyTable(c: Core, rows: seq<Row>, e: Event): seq<Row> {
    var blocked := e.key in c.active && !IsAfter(e.pos, c.active[e.key].pos);
    if e.id in c.seen || blocked then rows
    else if e.active then Upsert(rows, ToRecord(e))
    else if e.key in c.active then Deactivate(rows, c.active[e.key].id)
    else rows
  }

  /** Rows restored in the order given: the last active row of a key wins. */
  function RestoreCore(rows: seq<Row>): Core {
    if rows == [] then Core(map[], {})
    else
      var c, row := RestoreCore(rows[..|rows| - 1]), rows[|rows| - 1];
      Core(if row.active then c.active[row.record.key := row.record] else c.active, c.seen + {row.record.id})
  }

  function RestorePolicy(rows: seq<Row>): Policy {
    if rows == [] then Policy(None, map[], map[])
    else
      var p, row := RestorePolicy(rows[..|rows| - 1]), rows[|rows| - 1];
      if row.active then Project(p, row.record, true, "restored guardian action") else p
  }

  class GuardianService {
    const state: GuardianStateService
    var active: map<Key, Record>
    var seen: set<string>
    var rows: seq<Row>  // the guardian_actions table, every write acknowledged

    ghost function View(): Core
      reads this
    {
      Core(active, seen)
    }

    /** A new process over an existing table; `order` is the order in which the table is read back. */
    constructor Restore(state: GuardianStateService, rows: seq<Row>, order: seq<Row>)
      requires state.View() == Policy(None, map[], map[])
      modifies state
      ensures this.state == state && this.rows == rows
      ensures View() == RestoreCore(order) && state.View() == RestorePolicy(order)
    {
      this.state := state;
      active, seen, this.rows := map[], {}, rows;
      new;
      var i := 0;
      while i < |order|
        invariant 0 <= i <= |order| && this.state == state && this.rows == rows
        invariant View() == RestoreCore(order[..i]) && state.View() == RestorePolicy(order[..i])
      {
        assert order[..i + 1][..i] == order[..i];
        var row := order[i];
        seen := seen + {row.record.id};
        if row.active {
          active := active[row.record.key := row.record];
          state.ProjectAction(row.record, true, "restored guardian action");
        }
        i := i + 1;
      }
      assert order[..i] == order;
    }

    method Apply(e: Event)
      modifies this, state
      ensures View() == ApplyCore(old(View()), e)
      ensures state.View() == ApplyPolicy(old(View()), old(state.View()), e)
      ensures rows == ApplyTable(old(View()), old(rows), e)
    {
      if e.id in seen { return; }
      seen := seen + {e.id};
      if e.active {
        if e.key in active && !IsAfter(e.pos, active[e.key].pos) { return; }
        var record := ToRecord(e);
        active := active[e.key := record];
        state.ProjectAction(record, true, "guardian action");
        rows := Upsert(rows, record);
        return;
      }
      if e.key !in active || !IsAfter(e.pos, active[e.key].pos) { return; }
      var current := active[e.key];
      active := active - {e.key};
      state.ProjectAction(current, false, "guardian cleared (tx " + e.txHash + ")");
      rows := Deactivate(rows, current.id);
    }

    /** The part of `override` before the audit record is awaited. */
    method FindActive(id: string) returns (record: Option<Record>)
      ensures record.Some? ==> record.value.id == id && exists k :: k in active && active[k] == record.value
      ensures record.None? ==> forall k :: k in active ==> active[k].id != id
    {
      var todo := active.Keys;
      while todo != {}
        invariant todo <= active.Keys
        invariant forall k :: k in active && k !in todo ==> active[k].id != id
        decreases todo
      {
        var k := Pick(todo);
        if active[k].id == id { return Some(active[k]); }
        todo := todo - {k};
      }
      return None;
    }

    /** The part after it: the key is lifted whatever it holds by then. */
    method FinishOverride(record: Record, reason: string)
      modifies this, state
      ensures View() == Lift(old(View()), record)
      ensures state.View() == Project(old(state.View()), record, false, reason)
      ensures rows == Deactivate(old(rows), record.id)
    {
      active := active - {record.key};
      state.ProjectAction(record, false, reason);
      rows := Deactivate(rows, record.id);
    }
  }

  function Lift(c: Core, r: Record): Core {
    c.(active := c.active - {r.key})
  }
}
