/** The position the source may be told is confirmed (internal/confirmed): each
    worker's durably committed position, the frontier of what was sent, and the
    rules over them. */
module Confirmed {
  import opened Text
  import opened Order
  import opened PositionOrder
  import opened Inflight

  /** Committed positions by worker; a registered worker may have none yet. */
  type ByWorker = map<string, Option<Position>>

  /** What Min and Frontier report: no position, one, or an incomparable pair. */
  datatype Answer = Nil | Pos(p: Position) | Incomparable

  ghost predicate OneKind(m: ByWorker) {
    forall v, w :: v in m && w in m && m[v].Some? && m[w].Some? ==> SameKind(m[v].value, m[w].value)
  }

  /** The positions of the workers in ws, in some order. */
  ghost predicate Lists(vals: seq<Position>, m: ByWorker, ws: set<string>) {
    exists order: seq<string> :: ListsIn(order, vals, m, ws)
  }

  ghost predicate ListsIn(order: seq<string>, vals: seq<Position>, m: ByWorker, ws: set<string>) {
    && Once(order, ws) && |order| == |vals|
    && forall i :: 0 <= i < |order| ==> order[i] in m && m[order[i]] == Some(vals[i])
  }

  function FromMinimum(m: Minimum): Answer {
    match m
    case NoPosition => Nil
    case Least(p) => Pos(p)
    case NoSafeMinimum => Incomparable
  }

  /** The safe minimum over the workers in ws, none of which may lack a position. */
  ghost predicate MinOver(m: ByWorker, ws: set<string>, r: Answer) {
    if exists w :: w in ws && w in m && m[w].None? then r == Nil
    else exists vals :: Lists(vals, m, ws) && Homogeneous(vals) && r == FromMinimum(MinSafeOf(vals))
  }

  /** Min's rule: only workers that owe work constrain the minimum; with none
      owing, the dispatched frontier, or before any dispatch the minimum of all. */
  ghost predicate MinAnswer(m: ByWorker, owing: set<string>, dispatched: Option<Position>, r: Answer) {
    var owed := m.Keys * owing;
    if m == map[] then r == Nil
    else if owed != {} then MinOver(m, owed, r)
    else if dispatched.Some? then r == Pos(dispatched.value)
    else MinOver(m, m.Keys, r)
  }

  class Positions {
    var byWorker: ByWorker

    constructor ()
      ensures byWorker == map[]
    {
      byWorker := map[];
    }

    method Record(worker: string, pos: Option<Position>)
      modifies this
      ensures byWorker == if pos.None? then old(byWorker) else old(byWorker)[worker := pos]
    {
      if pos.None? { return; }
      byWorker := byWorker[worker := pos];
    }

    method Baseline(worker: string, pos: Option<Position>)
      modifies this
      ensures byWorker == old(byWorker)[worker := pos]
    {
      byWorker := byWorker[worker := pos];
    }

    method Seed(worker: string, pos: Option<Position>)
      modifies this
      ensures byWorker == if worker in old(byWorker) then old(byWorker) else old(byWorker)[worker := pos]
    {
      if worker !in byWorker { byWorker := byWorker[worker := pos]; }
    }

    method Forget(worker: string)
      modifies this
      ensures byWorker == old(byWorker) - {worker}
    {
      byWorker := byWorker - {worker};
    }

    /** One pass over the workers in ws: none when a worker has no position,
        otherwise their positions in the order met. */
    method Gather(ws: set<string>) returns (vals: Option<seq<Position>>)
      requires ws <= byWorker.Keys
      ensures vals.None? <==> exists w :: w in ws && byWorker[w].None?
      ensures vals.Some? ==> Lists(vals.value, byWorker, ws)
    {
      var got: seq<Position> := [];
      ghost var order: seq<string> := [];
      var todo := ws;
      while todo != {}
        invariant todo <= ws && ListsIn(order, got, byWorker, ws - todo)
        decreases todo
      {
        var w :| w in todo;
        if byWorker[w].None? { return None; }
        order := order + [w];
        got := got + [byWorker[w].value];
        todo := todo - {w};
        assert ListsIn(order, got, byWorker, ws - todo);
      }
      assert ws - todo == ws;
      assert forall w :: w in ws ==> w in order;
      vals := Some(got);
    }

    /** The rule, and what it comes to: no position exactly when no worker is listed
        or one that decides has none; the frontier exactly when none that is listed
        owes; otherwise the greatest position every decider contains, and an error
        only over GTID sets that do not form a chain. */
    method Min(owing: set<string>, dispatched: Option<Position>) returns (r: Answer)
      requires OneKind(byWorker)
      ensures MinAnswer(byWorker, owing, dispatched, r)
      ensures Meant(byWorker, owing, dispatched, r)
    {
      if |byWorker| == 0 { return Nil; }
      var owed := byWorker.Keys * owing;
      if owed == {} && dispatched.Some? { return Pos(dispatched.value); }
      var ws := if owed == {} then byWorker.Keys else owed;
      var vals := Gather(ws);
      if vals.None? { return Nil; }
      ListsKind(vals.value, byWorker, ws);
      var m := MinSafe(vals.value);
      r := FromMinimum(m);
      ListedMeant(vals.value, byWorker, ws);
    }
  }

  /** The workers whose committed positions decide: those listed that owe, or with
      none owing and no frontier all that are listed. */
  function Deciders(m: ByWorker, owing: set<string>, f: Option<Position>): (ws: set<string>)
    ensures ws <= m.Keys
  {
    if m.Keys * owing != {} then m.Keys * owing else if f.Some? then {} else m.Keys
  }

  ghost predicate AllHold(m: ByWorker, ws: set<string>, d: Position) {
    forall v :: v in ws && v in m ==> m[v].Some? && Holds(m[v].value, d)
  }

  /** The greatest position all of them contain. */
  ghost predicate GreatestBelow(m: ByWorker, ws: set<string>, p: Position) {
    AllHold(m, ws, p) && forall l :: AllHold(m, ws, l) ==> Holds(p, l)
  }

  ghost predicate Lacks(m: ByWorker, ws: set<string>) { exists w :: w in ws && w in m && m[w].None? }

  /** Two of them are GTID sets of which neither contains the other. */
  ghost predicate Unordered(m: ByWorker, ws: set<string>) {
    exists p: Position, q: Position ::
      p.Gtid? && q.Gtid? && Among(m, ws, p) && Among(m, ws, q) && !Holds(p, q) && !Holds(q, p)
  }

  ghost predicate Among(m: ByWorker, ws: set<string>, p: Position) {
    exists w :: w in ws && w in m && m[w] == Some(p)
  }

  ghost predicate Meant(m: ByWorker, owing: set<string>, f: Option<Position>, r: Answer) {
    var ws := Deciders(m, owing, f);
    if m == map[] || Lacks(m, ws) then r == Nil
    else if ws == {} then f.Some? && r == Pos(f.value)
    else MeantOver(m, ws, r)
  }

  ghost predicate MeantOver(m: ByWorker, ws: set<string>, r: Answer) {
    match r
    case Nil => false
    case Pos(p) => GreatestBelow(m, ws, p)
    case Incomparable => Unordered(m, ws)
  }

  /** The safe minimum of the positions of some workers, told by worker. */
  lemma ListedMeant(vals: seq<Position>, m: ByWorker, ws: set<string>)
    requires Lists(vals, m, ws) && Homogeneous(vals) && ws != {} && ws <= m.Keys
    ensures MeantOver(m, ws, FromMinimum(MinSafeOf(vals)))
  {
    var order :| ListsIn(order, vals, m, ws);
    var some :| some in ws;
    assert some in order;
    if MinSafeOf(vals).Least? { LeastOfListed(order, vals, m, ws); } else { NoLeastOfListed(order, vals, m, ws); }
  }

  lemma NoLeastOfListed(order: seq<string>, vals: seq<Position>, m: ByWorker, ws: set<string>)
    requires ListsIn(order, vals, m, ws) && Homogeneous(vals) && vals != [] && !MinSafeOf(vals).Least?
    ensures MinSafeOf(vals).NoSafeMinimum? && Unordered(m, ws)
  {
    var i, j := NoMinimumPair(vals);
    ListedAmong(order, vals, m, ws, i);
    ListedAmong(order, vals, m, ws, j);
    var p, q := vals[i], vals[j];
    assert Among(m, ws, p) && Among(m, ws, q);
  }

  lemma ListedAmong(order: seq<string>, vals: seq<Position>, m: ByWorker, ws: set<string>, i: nat)
    requires ListsIn(order, vals, m, ws) && i < |vals|
    ensures Among(m, ws, vals[i])
  {
    assert order[i] in ws && m[order[i]] == Some(vals[i]);
  }

  lemma LeastOfListed(order: seq<string>, vals: seq<Position>, m: ByWorker, ws: set<string>)
    requires ListsIn(order, vals, m, ws) && Homogeneous(vals) && MinSafeOf(vals).Least?
    ensures GreatestBelow(m, ws, MinSafeOf(vals).pos)
  {
    var p := MinSafeOf(vals).pos;
    MinSafeIsGreatestLowerBound(vals);
    forall w | w in ws && w in m ensures m[w].Some? && Holds(m[w].value, p) {
      assert w in order;
      var i :| 0 <= i < |order| && order[i] == w;
      assert m[w] == Some(vals[i]) && SameKind(vals[i], p) && Contains(vals[i], p);
    }
    forall l | AllHold(m, ws, l) ensures Holds(p, l) {
      forall i | 0 <= i < |vals| ensures Holds(vals[i], l) {
        assert order[i] in ws && m[order[i]] == Some(vals[i]);
      }
      assert AllKind(vals, l) && LowerBound(l, vals);
    }
  }

  lemma ListsKind(vals: seq<Position>, m: ByWorker, ws: set<string>)
    requires Lists(vals, m, ws) && OneKind(m)
    ensures Homogeneous(vals)
  {
    var order :| ListsIn(order, vals, m, ws);
  }

  // -------------------------------------------------------------------- Owing

  datatype Load = Load(name: string, queued: bool)

  /** The workers holding data not yet durable: queued, in flight, or buffered
      ahead of the send. */
  method Owing(workers: seq<Load>, inFlight: string -> nat, bufferedOwners: seq<string>) returns (owing: set<string>)
    ensures forall n :: n in owing <==>
      || n in bufferedOwners
      || exists i :: 0 <= i < |workers| && workers[i].name == n && (workers[i].queued || inFlight(n) > 0)
  {
    owing := {};
    for i := 0 to |workers|
      invariant forall n :: n in owing <==>
        exists j :: 0 <= j < i && workers[j].name == n && (workers[j].queued || inFlight(n) > 0)
    {
      if workers[i].queued || inFlight(workers[i].name) > 0 {
        owing := owing + {workers[i].name};
      }
    }
    for i := 0 to |bufferedOwners|
      invariant forall n :: n in owing <==>
        || n in bufferedOwners[..i]
        || exists j :: 0 <= j < |workers| && workers[j].name == n && (workers[j].queued || inFlight(n) > 0)
    {
      owing := owing + {bufferedOwners[i]};
    }
    assert bufferedOwners[..|bufferedOwners|] == bufferedOwners;
  }

  // ----------------------------------------------------------------- frontier

  /** One turn of Frontier's loop over the parsed positions. */
  function FrontierFrom(best: Option<Position>, rest: seq<Option<Position>>): Answer
    decreases |rest|
  {
    if rest == [] then if best.None? then Nil else Pos(best.value)
    else if rest[0].None? then FrontierFrom(best, rest[1..])
    else if best.None? then FrontierFrom(rest[0], rest[1..])
    else
      var c := Cmp(rest[0].value, best.value);
      if c == INCOMPARABLE then Incomparable
      else FrontierFrom(if c > 0 then rest[0] else best, rest[1..])
  }

  /** The tables' last sent positions, as parsed, in some map order. */
  ghost predicate Visits(vals: seq<Option<Position>>, raw: map<string, string>, parse: string -> Option<Position>) {
    exists order: seq<string> :: VisitsIn(order, vals, raw, parse)
  }

  ghost predicate VisitsIn(order: seq<string>, vals: seq<Option<Position>>, raw: map<string, string>,
                           parse: string -> Option<Position>) {
    && Once(order, raw.Keys) && |order| == |vals|
    && forall i :: 0 <= i < |order| ==> order[i] in raw && vals[i] == parse(raw[order[i]])
  }

  class Sent {
    var byTable: map<string, string>

    constructor ()
      ensures byTable == map[]
    {
      byTable := map[];
    }

    method Note(table: string, pos: string)
      modifies this
      ensures byTable == if pos == "" then old(byTable) else old(byTable)[table := pos]
    {
      if pos == "" { return; }
      byTable := byTable[table := pos];
    }

    method Frontier(parse: string -> Option<Position>) returns (r: Answer)
      ensures exists vals :: Visits(vals, byTable, parse) && r == FrontierFrom(None, vals)
      ensures FrontierMeant(byTable, parse, r)
    {
      var order := KeyOrder();
      var raw := byTable;
      ghost var vals := seq(|order|, i requires 0 <= i < |order| => parse(raw[order[i]]));
      assert VisitsIn(order, vals, raw, parse);
      var best: Option<Position> := None;
      var i := 0;
      while i < |order|
        invariant 0 <= i <= |order|
        invariant FrontierFrom(best, vals[i..]) == FrontierFrom(None, vals)
      {
        var p := parse(raw[order[i]]);
        assert vals[i..][0] == p && vals[i..][1..] == vals[i + 1..];
        i := i + 1;
        if p.None? { continue; }
        if best.None? {
          best := p;
          continue;
        }
        var c := Cmp(p.value, best.value);
        if c == INCOMPARABLE {
          r := Incomparable;
          FrontierExplained(order, vals, raw, parse);
          return;
        }
        if c > 0 { best := p; }
      }
      r := if best.None? then Nil else Pos(best.value);
      FrontierExplained(order, vals, raw, parse);
    }

    /** The order one walk of the map happens to take. */
    method KeyOrder() returns (order: seq<string>)
      ensures Once(order, byTable.Keys)
      ensures forall i :: 0 <= i < |order| ==> order[i] in byTable
    {
      order := [];
      var todo := byTable.Keys;
      while todo != {}
        invariant todo <= byTable.Keys && Once(order, byTable.Keys - todo)
        decreases todo
      {
        var k :| k in todo;
        order := order + [k];
        todo := todo - {k};
      }
      assert byTable.Keys - todo == byTable.Keys;
    }
  }

  ghost predicate SentAt(raw: map<string, string>, parse: string -> Option<Position>, p: Position) {
    exists t :: t in raw && parse(raw[t]) == Some(p)
  }

  /** What the frontier comes to: nothing exactly when no table's position parses, an
      error only over two with no order, and otherwise the one that contains all. */
  ghost predicate FrontierMeant(raw: map<string, string>, parse: string -> Option<Position>, r: Answer) {
    match r
    case Nil => forall p :: !SentAt(raw, parse, p)
    case Pos(p) => SentAt(raw, parse, p) && forall q :: SentAt(raw, parse, q) ==> Holds(p, q)
    case Incomparable =>
      exists p, q :: SentAt(raw, parse, p) && SentAt(raw, parse, q) && !Holds(p, q) && !Holds(q, p)
  }

  lemma VisitedIsSent(order: seq<string>, vals: seq<Option<Position>>, raw: map<string, string>,
                      parse: string -> Option<Position>, p: Position)
    requires VisitsIn(order, vals, raw, parse)
    ensures SentAt(raw, parse, p) <==> Some(p) in vals
  {
    if SentAt(raw, parse, p) {
      var t :| t in raw && parse(raw[t]) == Some(p);
      assert t in raw.Keys && t in order;
      var i :| 0 <= i < |order| && order[i] == t;
      assert vals[i] == Some(p);
    }
    if Some(p) in vals {
      var i :| 0 <= i < |vals| && vals[i] == Some(p);
      assert order[i] in raw && parse(raw[order[i]]) == Some(p);
    }
  }

  lemma FrontierExplained(order: seq<string>, vals: seq<Option<Position>>, raw: map<string, string>,
                          parse: string -> Option<Position>)
    requires VisitsIn(order, vals, raw, parse)
    ensures FrontierMeant(raw, parse, FrontierFrom(None, vals))
  {
    forall p ensures SentAt(raw, parse, p) <==> Some(p) in vals { VisitedIsSent(order, vals, raw, parse, p); }
    FrontierNil(None, vals);
    match FrontierFrom(None, vals)
    case Nil =>
    case Pos(p) => FrontierIsGreatest(None, vals);
    case Incomparable =>
      var p, q := FrontierPair(None, vals);
      assert SentAt(raw, parse, p) && SentAt(raw, parse, q);
  }

  lemma {:induction false} FrontierNil(best: Option<Position>, rest: seq<Option<Position>>)
    ensures FrontierFrom(best, rest).Nil? <==> best.None? && forall i :: 0 <= i < |rest| ==> rest[i].None?
    decreases |rest|
  {
    if rest != [] {
      var c := if rest[0].Some? && best.Some? then Cmp(rest[0].value, best.value) else 0;
      FrontierNil(if rest[0].None? then best else if best.None? || c > 0 then rest[0] else best, rest[1..]);
      assert forall i :: 0 < i < |rest| ==> rest[i] == rest[1..][i - 1];
      assert forall i :: 0 <= i < |rest| - 1 ==> rest[1..][i] == rest[i + 1];
    }
  }

  lemma {:induction false} FrontierPair(best: Option<Position>, rest: seq<Option<Position>>)
    returns (p: Position, q: Position)
    requires FrontierFrom(best, rest).Incomparable?
    ensures (Some(p) == best || Some(p) in rest) && (Some(q) == best || Some(q) in rest)
    ensures !Holds(p, q) && !Holds(q, p)
    decreases |rest|
  {
    if rest[0].None? {
      p, q := FrontierPair(best, rest[1..]);
    } else if best.None? {
      p, q := FrontierPair(rest[0], rest[1..]);
    } else {
      CmpIsContainment(rest[0].value, best.value);
      var c := Cmp(rest[0].value, best.value);
      if c == INCOMPARABLE {
        p, q := rest[0].value, best.value;
      } else {
        p, q := FrontierPair(if c > 0 then rest[0] else best, rest[1..]);
      }
    }
    assert rest == [rest[0]] + rest[1..];
  }

  /** A frontier is one of the parsed positions, and contains all of them. */
  lemma {:induction false} FrontierIsGreatest(best: Option<Position>, rest: seq<Option<Position>>)
    requires FrontierFrom(best, rest).Pos?
    ensures var f := FrontierFrom(best, rest).p;
      && (Some(f) == best || Some(f) in rest)
      && (best.Some? ==> Holds(f, best.value))
      && forall i :: 0 <= i < |rest| && rest[i].Some? ==> Holds(f, rest[i].value)
    decreases |rest|
  {
    if rest == [] {
      Preorder(best.value, best.value, best.value);
    } else if rest[0].None? {
      FrontierIsGreatest(best, rest[1..]);
      assert forall i :: 0 < i < |rest| ==> rest[i] == rest[1..][i - 1];
    } else if best.None? {
      FrontierIsGreatest(rest[0], rest[1..]);
      assert forall i :: 0 < i < |rest| ==> rest[i] == rest[1..][i - 1];
    } else {
      var p := rest[0].value;
      CmpIsContainment(p, best.value);
      var next := if Cmp(p, best.value) > 0 then rest[0] else best;
      FrontierIsGreatest(next, rest[1..]);
      var f := FrontierFrom(best, rest).p;
      Preorder(p, p, p);
      if Holds(next.value, p) { HoldsTransitive(f, next.value, p); }
      HoldsTransitive(f, next.value, best.value);
      assert forall i :: 0 < i < |rest| ==> rest[i] == rest[1..][i - 1];
    }
  }

  /** Two map orders that both give a frontier give Compare-equal ones. */
  lemma FrontierOrderDoesNotMatter(v: seq<Option<Position>>, w: seq<Option<Position>>)
    requires forall p :: p in v <==> p in w
    requires FrontierFrom(None, v).Pos? && FrontierFrom(None, w).Pos?
    ensures Cmp(FrontierFrom(None, v).p, FrontierFrom(None, w).p) == 0
  {
    FrontierIsGreatest(None, v);
    FrontierIsGreatest(None, w);
    var f, g := FrontierFrom(None, v).p, FrontierFrom(None, w).p;
    assert Some(f) in w && Some(g) in v;
    CmpIsContainment(f, g);
  }

  ghost predicate Ordered(vals: seq<Option<Position>>) {
    forall i, j :: 0 <= i < |vals| && 0 <= j < |vals| && vals[i].Some? && vals[j].Some? ==>
      Cmp(vals[i].value, vals[j].value) != INCOMPARABLE
  }

  /** Positions that form a chain never give an error, in any order. */
  lemma {:induction false} ChainHasFrontier(best: Option<Position>, rest: seq<Option<Position>>)
    requires Ordered([best] + rest)
    ensures !FrontierFrom(best, rest).Incomparable?
    decreases |rest|
  {
    if rest != [] {
      var all := [best] + rest;
      assert all[0] == best && all[1] == rest[0];
      var next := if rest[0].None? then best
                  else if best.None? then rest[0]
                  else if Cmp(rest[0].value, best.value) > 0 then rest[0] else best;
      assert forall i :: 0 <= i < |rest| ==> all[i + 1] == rest[i];
      var shorter := [next] + rest[1..];
      forall i | 0 <= i < |shorter| ensures shorter[i] in all {
        if i > 0 { assert shorter[i] == all[i + 1]; }
      }
      ChainHasFrontier(next, rest[1..]);
    }
  }

  // --------------------------------------------------------------------- acks

  datatype Ack = Ack(table: string, position: string, markerId: nat, epoch: nat)

  datatype Outcome = Committed | Marker | Stale | StaleMarker | Unparsable | NoWindow

  /** The coordinator as an ack sees it: how positions parse, which tables are
      committed by the coordinator itself, each worker's generation, and each
      worker's in-flight window. */
  class AckHost {
    const parse: string -> Option<Position>
    const staged: set<string>
    var epochs: map<string, nat>
    var index: map<string, Index>
    var positions: ByWorker

    constructor (parse: string -> Option<Position>, staged: set<string>)
      ensures this.parse == parse && this.staged == staged
      ensures epochs == map[] && index == map[] && positions == map[]
    {
      this.parse, this.staged := parse, staged;
      epochs, index, positions := map[], map[], map[];
    }

    predicate Superseded(worker: string, epoch: nat)
      reads this
    {
      worker in epochs && epochs[worker] != epoch
    }

    /** OnAck: releases what the commit covers, and records the position unless the
        table is staged; a superseded generation's ack on a staged table, an
        unparsable position and an unknown worker change nothing. */
    method OnAck(worker: string, ack: Ack) returns (o: Outcome)
      modifies this`index, this`positions
      ensures o.Marker? || o.StaleMarker? <==> ack.markerId != 0 && ack.position == ""
      ensures o.Unparsable? <==> !(ack.markerId != 0 && ack.position == "") && parse(ack.position).None?
      ensures o.StaleMarker? || o.Stale? <==>
        !o.Unparsable? && ack.table in staged && worker in epochs && epochs[worker] != ack.epoch
      ensures o.NoWindow? ==> worker !in old(index)
      ensures o.Committed? ==> worker in old(index) && parse(ack.position).Some?
      ensures index ==
        if o.Committed? then old(index)[worker := Truncated(old(index)[worker], ack.table, parse(ack.position).value)]
        else if o.Marker? && worker in old(index) then
          old(index)[worker := MarkerReleased(old(index)[worker], ack.markerId)]
        else old(index)
      ensures positions ==
        if o.Committed? && ack.table !in staged then old(positions)[worker := parse(ack.position)]
        else old(positions)
    {
      if ack.markerId != 0 && ack.position == "" {
        if ack.table in staged && Superseded(worker, ack.epoch) { return StaleMarker; }
        if worker in index { index := index[worker := MarkerReleased(index[worker], ack.markerId)]; }
        return Marker;
      }
      var pos := parse(ack.position);
      if pos.None? { return Unparsable; }
      if ack.table in staged && Superseded(worker, ack.epoch) { return Stale; }
      if worker !in index { return NoWindow; }
      index := index[worker := Truncated(index[worker], ack.table, pos.value)];
      if ack.table !in staged { positions := positions[worker := pos]; }
      return Committed;
    }
  }
}
