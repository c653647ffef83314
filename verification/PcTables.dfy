/** Callbacks emitted as case tables that a program counter drives. */
module PcTables {
  import opened Options
  import opened Terms
  import opened Programs
  import opened Graphs
  import opened Flattening

  /** In this state, at this program counter and under this guard, the variable becomes rhs. */
  datatype Row = Row(state: int, pc: nat, guard: Expr, rhs: Expr)

  type Tables = map<string, seq<Row>>

  // ----- what the tables hold

  /** All commands of some callbacks, one list after the other. */
  function FlatCallbacks(cs: seq<Cmd>): seq<Node> {
    if cs == [] then [] else FlatCallbacks(cs[..|cs| - 1]) + Flat(Associated(cs[|cs| - 1]), [])
  }

  /** The commands of a state; the invalid state has none. */
  function Commands(g: Graph, s: int): seq<Node> {
    if s == INVALID_STATE || s !in g.acts then [] else FlatCallbacks(g.acts[s])
  }

  predicate IsRow(x: string, r: Row, n: Node) {
    n.cmd.Set? && n.cmd.name == x && r.guard == Guard(n.path) && r.rhs == n.cmd.rhs
  }

  predicate HasRow(table: Tables, x: string, r: Row) {
    x in table && r in table[x]
  }

  /** The row belongs to command number r.pc (counted from 1) of its state. */
  predicate RowOf(commands: map<int, seq<Node>>, x: string, r: Row) {
    && r.state in commands
    && 1 <= r.pc <= |commands[r.state]|
    && IsRow(x, r, commands[r.state][r.pc - 1])
  }

  /** The tables hold exactly one row for every assignment: the k-th command of a state at k. */
  ghost predicate Tabulates(table: Tables, commands: map<int, seq<Node>>) {
    && (forall x, r :: HasRow(table, x, r) <==> RowOf(commands, x, r))
    && forall x | x in table :: OncePerCommand(table[x])
  }

  predicate OncePerCommand(rows: seq<Row>) {
    forall i, j | 0 <= i < j < |rows| :: rows[i].state != rows[j].state || rows[i].pc != rows[j].pc
  }

  ghost predicate Counts(pcMax: map<int, nat>, commands: map<int, seq<Node>>) {
    pcMax.Keys == commands.Keys && forall s | s in commands :: pcMax[s] == |commands[s]|
  }

  // ----- building them

  /** One more command of a state: it takes the next program counter, and an assignment gets a row
      in the table of its variable. */
  method AddSetter(table: Tables, pcMax: map<int, nat>, state: int, pc: nat, n: Node,
                   ghost commands: map<int, seq<Node>>)
    returns (table': Tables, pcMax': map<int, nat>)
    requires Tabulates(table, commands) && Counts(pcMax, commands)
    requires state in commands && pc == |commands[state]| + 1
    requires n.cmd.Set? || n.cmd.Skip?
    ensures var more := commands[state := commands[state] + [n]];
      Tabulates(table', more) && Counts(pcMax', more)
  {
    if state in pcMax {
      var before := pcMax[state];
      pcMax' := pcMax[state := if before < pc then pc else before];
    } else {
      pcMax' := pcMax[state := pc];
    }
    table' := table;
    ghost var more := commands[state := commands[state] + [n]];
    forall x, r
      ensures RowOf(more, x, r) <==> RowOf(commands, x, r) || (r.state == state && r.pc == pc && IsRow(x, r, n))
    {}
    if n.cmd.Set? {
      var x := n.cmd.name;
      var guard := CollectIfConditions(n);
      var row := Row(state, pc, guard, n.cmd.rhs);
      if x in table {
        table' := table[x := table[x] + [row]];
      } else {
        table' := table[x := [row]];
      }
      if x in table {
        forall r | r in table[x]
          ensures r.state != state || r.pc != pc
        {
          assert HasRow(table, x, r);
        }
      }
      forall y, r
        ensures HasRow(table', y, r) <==> HasRow(table, y, r) || (r.state == state && r.pc == pc && IsRow(y, r, n))
      {}
    }
  }

  /** Adds one list of commands behind those the state already has. */
  method AddList(table: Tables, pcMax: map<int, nat>, state: int, list: seq<Node>, start: nat, ghost commands: map<int, seq<Node>>)
    returns (table': Tables, pcMax': map<int, nat>, pc: nat)
    requires Tabulates(table, commands) && Counts(pcMax, commands)
    requires state in commands && start == |commands[state]| + 1 && Atomic(list)
    ensures var more := commands[state := commands[state] + list];
      Tabulates(table', more) && Counts(pcMax', more)
    ensures pc == start + |list|
  {
    hide Tabulates, Counts;
    table', pcMax', pc := table, pcMax, start;
    ghost var before := commands[state];
    assert before + list[..0] == before;
    assert commands[state := before] == commands;
    for k := 0 to |list|
      invariant pc == start + k
      invariant Tabulates(table', commands[state := before + list[..k]])
      invariant Counts(pcMax', commands[state := before + list[..k]])
    {
      ghost var soFar := commands[state := before + list[..k]];
      assert list[k] in list;
      assert (before + list[..k]) + [list[k]] == before + list[..k + 1];
      table', pcMax' := AddSetter(table', pcMax', state, pc, list[k], soFar);
      assert soFar[state := before + list[..k + 1]] == commands[state := before + list[..k + 1]];
      pc := pc + 1;
    }
    assert list[..|list|] == list;
  }

  /** Adds the commands of one state. */
  method AddCallbacks(g: Graph, table: Tables, pcMax: map<int, nat>, state: int, ghost commands: map<int, seq<Node>>)
    returns (table': Tables, pcMax': map<int, nat>)
    requires Tabulates(table, commands) && Counts(pcMax, commands)
    requires state in commands && commands[state] == []
    requires state != INVALID_STATE && state in g.acts
    ensures var more := commands[state := Commands(g, state)];
      Tabulates(table', more) && Counts(pcMax', more)
  {
    hide Tabulates, Counts, Flat;
    table', pcMax' := table, pcMax;
    var pc := 1;
    var callbacks := g.acts[state];
    assert commands[state := []] == commands;
    for i := 0 to |callbacks|
      invariant pc == |FlatCallbacks(callbacks[..i])| + 1
      invariant Tabulates(table', commands[state := FlatCallbacks(callbacks[..i])])
      invariant Counts(pcMax', commands[state := FlatCallbacks(callbacks[..i])])
    {
      ghost var soFar := commands[state := FlatCallbacks(callbacks[..i])];
      var flat := MakeAssociative(callbacks[i]);
      var list := ExtractTopLevelCommandsRecursively(flat);
      assert callbacks[..i + 1][..i] == callbacks[..i];
      table', pcMax', pc := AddList(table', pcMax', state, list, pc, soFar);
      assert soFar[state := FlatCallbacks(callbacks[..i + 1])] == commands[state := FlatCallbacks(callbacks[..i + 1])];
    }
    assert callbacks[..|callbacks|] == callbacks;
  }

  ghost function AllCommands(g: Graph, todo: set<int>): map<int, seq<Node>> {
    map s | s in g.states :: if s in todo then [] else Commands(g, s)
  }

  /** Whatever the order in which the states come. */
  method TabulateStates(g: Graph) returns (table: Tables, pcMax: map<int, nat>)
    ensures Tabulates(table, AllCommands(g, {}))
    ensures Counts(pcMax, AllCommands(g, {}))
  {
    hide Tabulates, Counts, Commands;
    table, pcMax := map[], map s | s in g.states :: 0;
    NoCommandsYet(g, pcMax);
    var todo := g.states;
    while todo != {}
      invariant todo <= g.states
      invariant Tabulates(table, AllCommands(g, todo)) && Counts(pcMax, AllCommands(g, todo))
      decreases todo
    {
      var s := Pick(todo);
      ghost var soFar := AllCommands(g, todo);
      if s != INVALID_STATE && s in g.acts {
        table, pcMax := AddCallbacks(g, table, pcMax, s, soFar);
      }
      OneStateLess(g, todo, s);
      todo := todo - {s};
    }
  }

  lemma NoCommandsYet(g: Graph, pcMax: map<int, nat>)
    requires pcMax == map s | s in g.states :: 0
    ensures Tabulates(map[], AllCommands(g, g.states)) && Counts(pcMax, AllCommands(g, g.states))
  {}

  lemma OneStateLess(g: Graph, todo: set<int>, s: int)
    requires s in todo && todo <= g.states
    ensures AllCommands(g, todo - {s}) == AllCommands(g, todo)[s := Commands(g, s)]
    ensures s == INVALID_STATE || s !in g.acts ==> AllCommands(g, todo - {s}) == AllCommands(g, todo)
  {}

  method Largest(pcMax: map<int, nat>) returns (globalMax: nat)
    ensures forall s | s in pcMax :: pcMax[s] <= globalMax
    ensures globalMax == 0 || exists s | s in pcMax :: pcMax[s] == globalMax
  {
    globalMax := 0;
    var left := pcMax.Keys;
    while left != {}
      invariant left <= pcMax.Keys
      invariant forall s | s in pcMax && s !in left :: pcMax[s] <= globalMax
      invariant globalMax == 0 || exists s | s in pcMax :: pcMax[s] == globalMax
      decreases left
    {
      var s := Pick(left);
      globalMax := if globalMax < pcMax[s] then pcMax[s] else globalMax;
      left := left - {s};
    }
  }

  /** The tables of all variables, the number of commands of every state, and the largest. */
  method SerializeCallbacks(g: Graph) returns (table: Tables, pcMax: map<int, nat>, globalMax: nat)
    ensures Emitted(g, table, pcMax, globalMax)
    ensures globalMax == 0 || exists s | s in pcMax :: pcMax[s] == globalMax
  {
    table, pcMax := TabulateStates(g);
    globalMax := Largest(pcMax);
  }

  /** The emitted program is the one for g. */
  ghost predicate Emitted(g: Graph, table: Tables, pcMax: map<int, nat>, globalMax: nat) {
    && Tabulates(table, AllCommands(g, {}))
    && Counts(pcMax, AllCommands(g, {}))
    && forall s | s in pcMax :: pcMax[s] <= globalMax
  }

  // ----- what the tables do

  /** The first row whose state, program counter and guard apply. */
  function FirstRow(rows: seq<Row>, s: int, pc: nat, w: World): Option<Row> {
    if rows == [] then None
    else if rows[0].state == s && rows[0].pc == pc && Holds(rows[0].guard, w) then Some(rows[0])
    else FirstRow(rows[1..], s, pc, w)
  }

  /** The values that next(.) assigns to the variables some row applies to. */
  function Assigned(table: Tables, s: int, pc: nat, w: World): map<string, int> {
    map x | x in table && FirstRow(table[x], s, pc, w).Some? :: Eval(FirstRow(table[x], s, pc, w).value.rhs, w)
  }

  function NextWorld(table: Tables, s: int, pc: nat, w: World): World {
    w.(vals := w.vals + Assigned(table, s, pc, w))
  }

  function NextPc(pcMax: map<int, nat>, globalMax: nat, s: int, pc: nat): nat {
    if s in pcMax && pc >= pcMax[s] then 0 else if globalMax < pc + 1 then globalMax else pc + 1
  }

  /** n steps of the emitted program while it stays in state s. */
  function PcRun(table: Tables, pcMax: map<int, nat>, globalMax: nat, s: int, pc: nat, w: World, n: nat): (nat, World)
    decreases n
  {
    if n == 0 then (pc, w)
    else PcRun(table, pcMax, globalMax, s, NextPc(pcMax, globalMax, s, pc), NextWorld(table, s, pc, w), n - 1)
  }

  lemma {:induction false} FirstRowIs(rows: seq<Row>, s: int, pc: nat, w: World)
    ensures var f := FirstRow(rows, s, pc, w);
      && (f.Some? ==> f.value in rows && f.value.state == s && f.value.pc == pc && Holds(f.value.guard, w))
      && (f.None? ==> forall r | r in rows && r.state == s && r.pc == pc :: !Holds(r.guard, w))
  {
    if rows != [] {
      FirstRowIs(rows[1..], s, pc, w);
    }
  }

  /** One step executes the command the program counter points at, and nothing else; in particular
      it assigns at most one variable. */
  lemma StepFires(table: Tables, commands: map<int, seq<Node>>, s: int, pc: nat, w: World)
    requires Tabulates(table, commands) && s in commands
    requires 1 <= pc <= |commands[s]| ==> commands[s][pc - 1].cmd.Set? || commands[s][pc - 1].cmd.Skip?
    ensures NextWorld(table, s, pc, w)
         == if 1 <= pc <= |commands[s]| then ExecNode(commands[s][pc - 1], w) else w
  {
    forall x | x in table
      ensures var f := FirstRow(table[x], s, pc, w);
        && (f.Some? ==> RowOf(commands, x, f.value) && f.value.state == s && f.value.pc == pc && Holds(f.value.guard, w))
        && (f.None? ==> forall r | r in table[x] && r.state == s && r.pc == pc :: !Holds(r.guard, w))
    {
      FirstRowIs(table[x], s, pc, w);
      var f := FirstRow(table[x], s, pc, w);
      if f.Some? {
        assert HasRow(table, x, f.value);
      }
    }
    var all := Assigned(table, s, pc, w);
    if 1 <= pc <= |commands[s]| && commands[s][pc - 1].cmd.Set? && Holds(Guard(commands[s][pc - 1].path), w) {
      var n := commands[s][pc - 1];
      var x := n.cmd.name;
      var r := Row(s, pc, Guard(n.path), n.cmd.rhs);
      assert RowOf(commands, x, r);
      assert HasRow(table, x, r);
      assert all.Keys == {x} && all[x] == Eval(n.cmd.rhs, w);
      assert w.vals + all == w.vals[x := Eval(n.cmd.rhs, w)];
    } else {
      assert all == map[];
      assert w.vals + all == w.vals;
    }
  }

  lemma {:induction false} FlatIsAtomic(c: Cmd, path: seq<Frame>)
    ensures Atomic(Flat(c, path))
  {
    match c
    case Set(_, _) =>
    case Skip(_) =>
    case Seq(a, b) =>
      FlatIsAtomic(a, [InFst(b)] + path);
      FlatIsAtomic(b, [InSnd(a)] + path);
    case If(e, a) => FlatIsAtomic(a, [InIf(e)] + path);
    case IfElse(e, a, b) =>
      FlatIsAtomic(a, [InThen(e, b)] + path);
      FlatIsAtomic(b, [InElse(e, a)] + path);
  }

  lemma {:induction false} CallbacksAtomic(cs: seq<Cmd>)
    ensures Atomic(FlatCallbacks(cs))
  {
    if cs != [] {
      CallbacksAtomic(cs[..|cs| - 1]);
      FlatIsAtomic(Associated(cs[|cs| - 1]), []);
    }
  }

  lemma {:induction false} CallbacksRun(cs: seq<Cmd>, w: World)
    requires forall c | c in cs :: KeepsConditions(c)
    ensures ExecNodes(FlatCallbacks(cs), w) == ExecAll(cs, w)
  {
    if cs != [] {
      var rest, c := cs[..|cs| - 1], cs[|cs| - 1];
      CallbacksRun(rest, w);
      AssociatedMeans(c);
      FlatteningPreserves(Associated(c));
      ExecNodesAppend(FlatCallbacks(rest), Flat(Associated(c), []), w);
      ExecAllSnoc(rest, c, w);
      assert cs == rest + [c];
    }
  }

  lemma {:induction false} ExecAllSnoc(cs: seq<Cmd>, c: Cmd, w: World)
    ensures ExecAll(cs + [c], w) == Exec(c, ExecAll(cs, w))
  {
    if cs == [] {
      ExecOne(c, w);
      assert [] + [c] == [c];
    } else {
      ExecAllSnoc(cs[1..], c, Exec(cs[0], w));
      assert (cs + [c])[1..] == cs[1..] + [c];
    }
  }

  // ----- runs

  lemma EmittedStep(g: Graph, table: Tables, pcMax: map<int, nat>, globalMax: nat, s: int, pc: nat, w: World)
    requires Emitted(g, table, pcMax, globalMax) && s in g.states && pc <= |Commands(g, s)|
    ensures NextWorld(table, s, pc, w) == if pc == 0 then w else ExecNode(Commands(g, s)[pc - 1], w)
    ensures NextPc(pcMax, globalMax, s, pc) == if pc == |Commands(g, s)| then 0 else pc + 1
  {
    var commands := AllCommands(g, {});
    assert commands[s] == Commands(g, s);
    if s in g.acts {
      CallbacksAtomic(g.acts[s]);
    }
    StepFires(table, commands, s, pc, w);
  }

  /** From program counter k on, the remaining commands run in order, one a step, and the program
      counter then returns to 0. */
  lemma {:induction false} RestRuns(g: Graph, table: Tables, pcMax: map<int, nat>, globalMax: nat, s: int, k: nat, w: World)
    requires Emitted(g, table, pcMax, globalMax) && s in g.states
    requires 1 <= k <= |Commands(g, s)|
    ensures PcRun(table, pcMax, globalMax, s, k, w, |Commands(g, s)| + 1 - k)
         == (0, ExecNodes(Commands(g, s)[k - 1..], w))
    decreases |Commands(g, s)| - k
  {
    hide Commands, Emitted, ExecNode, NextWorld, NextPc;
    var ns := Commands(g, s);
    EmittedStep(g, table, pcMax, globalMax, s, k, w);
    var w' := ExecNode(ns[k - 1], w);
    assert ns[k - 1..][1..] == ns[k..];
    if k < |ns| {
      RestRuns(g, table, pcMax, globalMax, s, k + 1, w');
    } else {
      assert PcRun(table, pcMax, globalMax, s, 0, w', 0) == (0, w');
      assert ExecNodes(ns[k..], w') == w';
    }
  }

  /** While the state is held and starting from 0, the program counter is n after n steps as long as
      commands remain, with the first n - 1 commands executed. */
  lemma {:induction false} ProgramCounterCounts(g: Graph, table: Tables, pcMax: map<int, nat>, globalMax: nat, s: int, w: World, n: nat)
    requires Emitted(g, table, pcMax, globalMax) && s in g.states && n <= |Commands(g, s)|
    ensures PcRun(table, pcMax, globalMax, s, 0, w, n)
         == (n, ExecNodes(Commands(g, s)[..if n == 0 then 0 else n - 1], w))
    decreases n
  {
    hide Commands, Emitted, ExecNode, NextWorld, NextPc;
    var ns := Commands(g, s);
    if n == 0 {
      assert ns[..0] == [];
    } else {
      ProgramCounterCounts(g, table, pcMax, globalMax, s, w, n - 1);
      var w' := PcRun(table, pcMax, globalMax, s, 0, w, n - 1).1;
      EmittedStep(g, table, pcMax, globalMax, s, n - 1, w');
      PcRunSnoc(table, pcMax, globalMax, s, 0, w, n - 1);
      if n >= 2 {
        assert ns[..n - 1] == ns[..n - 2] + [ns[n - 2]];
        ExecNodesAppend(ns[..n - 2], [ns[n - 2]], w);
        ExecNodesOne(ns[n - 2], w');
      }
    }
  }

  lemma {:induction false} PcRunSnoc(table: Tables, pcMax: map<int, nat>, globalMax: nat, s: int, pc: nat, w: World, n: nat)
    ensures var (pc', w') := PcRun(table, pcMax, globalMax, s, pc, w, n);
      PcRun(table, pcMax, globalMax, s, pc, w, n + 1) == (NextPc(pcMax, globalMax, s, pc'), NextWorld(table, s, pc', w'))
    decreases n
  {
    if n > 0 {
      PcRunSnoc(table, pcMax, globalMax, s, NextPc(pcMax, globalMax, s, pc), NextWorld(table, s, pc, w), n - 1);
    }
  }

  /** Held in a state and started at program counter 0, the emitted program is back at 0 after one
      step more than the state has commands, having done what the callbacks of the state do.
      Started at 1 it saves the idle first step. */
  lemma TablesRefineCallbacks(g: Graph, table: Tables, pcMax: map<int, nat>, globalMax: nat, s: int, w: World)
    requires Emitted(g, table, pcMax, globalMax)
    requires s in g.states && s != INVALID_STATE
    requires forall c | c in g.Acts(s) :: KeepsConditions(c)
    ensures PcRun(table, pcMax, globalMax, s, 0, w, pcMax[s] + 1) == (0, ExecAll(g.Acts(s), w))
    ensures pcMax[s] >= 1 ==> PcRun(table, pcMax, globalMax, s, 1, w, pcMax[s]) == (0, ExecAll(g.Acts(s), w))
  {
    var ns := Commands(g, s);
    assert pcMax[s] == |ns| by {
      assert AllCommands(g, {})[s] == ns;
    }
    CallbacksRun(g.Acts(s), w);
    EmittedStep(g, table, pcMax, globalMax, s, 0, w);
    if |ns| >= 1 {
      RestRuns(g, table, pcMax, globalMax, s, 1, w);
      assert ns[0..] == ns;
    } else {
      assert PcRun(table, pcMax, globalMax, s, 0, w, 0) == (0, w);
    }
  }

  /** The invalid state never changes the data. */
  lemma {:induction false} InvalidStateIsIdle(g: Graph, table: Tables, pcMax: map<int, nat>, globalMax: nat, w: World, n: nat)
    requires Emitted(g, table, pcMax, globalMax) && INVALID_STATE in g.states
    ensures PcRun(table, pcMax, globalMax, INVALID_STATE, 0, w, n) == (0, w)
    decreases n
  {
    if n > 0 {
      EmittedStep(g, table, pcMax, globalMax, INVALID_STATE, 0, w);
      InvalidStateIsIdle(g, table, pcMax, globalMax, w, n - 1);
    }
  }
}
