/** ECMAScript `switch` semantics, for a switch whose clauses only assign one
    variable or `break`. Control enters at the first `case` whose label is
    strictly equal to the discriminant (or at `default` when none is), then
    runs the statements of that clause and of every following clause until a
    `break`: a clause without `break` falls through into the next one. */
module JsSwitch {
  import opened Wrappers

  datatype Stmt<V> = Assign(value: V) | Break

  datatype Clause<L, V> = Case(caseValue: L, body: seq<Stmt<V>>) | Default(body: seq<Stmt<V>>)

  predicate Matches<L(==), V>(c: Clause<L, V>, x: L) {
    c.Case? && c.caseValue == x
  }

  /** The first clause at or after `from` whose `case` label equals `x`. */
  function FirstCase<L(==), V>(clauses: seq<Clause<L, V>>, x: L, from: nat): (r: Option<nat>)
    ensures r.Some? ==> from <= r.value < |clauses| && Matches(clauses[r.value], x)
    ensures r.Some? ==> forall i :: from <= i < r.value ==> !Matches(clauses[i], x)
    ensures r.None? ==> forall i :: from <= i < |clauses| ==> !Matches(clauses[i], x)
    decreases |clauses| - from
  {
    if |clauses| <= from then None
    else if Matches(clauses[from], x) then Some(from)
    else FirstCase(clauses, x, from + 1)
  }

  /** The first `default` clause at or after `from`. */
  function FirstDefault<L, V>(clauses: seq<Clause<L, V>>, from: nat): (r: Option<nat>)
    ensures r.Some? ==> from <= r.value < |clauses| && clauses[r.value].Default?
    ensures r.Some? ==> forall i :: from <= i < r.value ==> !clauses[i].Default?
    ensures r.None? ==> forall i :: from <= i < |clauses| ==> !clauses[i].Default?
    decreases |clauses| - from
  {
    if |clauses| <= from then None
    else if clauses[from].Default? then Some(from)
    else FirstDefault(clauses, from + 1)
  }

  /** Where control enters the switch: the first matching `case`, else the
      `default` clause, else nowhere. */
  function EntryPoint<L(==), V>(clauses: seq<Clause<L, V>>, x: L): (r: Option<nat>)
    ensures r.Some? ==> r.value < |clauses|
  {
    match FirstCase(clauses, x, 0)
    case Some(i) => Some(i)
    case None => FirstDefault(clauses, 0)
  }

  /** The statements of clause `from` and of every clause after it, in order:
      the path control takes when nothing breaks. */
  function StatementsFrom<L, V>(clauses: seq<Clause<L, V>>, from: nat): seq<Stmt<V>>
    decreases |clauses| - from
  {
    if |clauses| <= from then [] else clauses[from].body + StatementsFrom(clauses, from + 1)
  }

  /** Runs statements on the switched variable's value `v` until the first
      `break`. */
  function Exec<V>(stmts: seq<Stmt<V>>, v: Option<V>): (r: Option<V>)
    ensures r == v || (r.Some? && Assign(r.value) in stmts)
  {
    if |stmts| == 0 then v
    else match stmts[0]
      case Break => v
      case Assign(w) => Exec(stmts[1..], Some(w))
  }

  /** Statements after the first `break` have no effect: running a
      break-free prefix, a `break` and anything at all is running the prefix. */
  lemma {:induction false} BreakStops<V>(a: seq<Stmt<V>>, b: seq<Stmt<V>>, v: Option<V>)
    requires forall s :: s in a ==> s.Assign?
    ensures Exec(a + [Break] + b, v) == Exec(a, v)
    decreases |a|
  {
    if |a| == 0 {
      assert a + [Break] + b == [Break] + b;
    } else {
      assert (a + [Break] + b)[1..] == a[1..] + [Break] + b;
      BreakStops(a[1..], b, Some(a[0].value));
    }
  }

  /** Among break-free statements the last assignment wins: whatever was
      assigned before, a final `Assign(w)` leaves `w`. */
  lemma {:induction false} LastAssignWins<V>(a: seq<Stmt<V>>, w: V, v: Option<V>)
    requires forall s :: s in a ==> s.Assign?
    ensures Exec(a + [Assign(w)], v) == Some(w)
    decreases |a|
  {
    if |a| == 0 {
      assert a + [Assign(w)] == [Assign(w)];
    } else {
      assert (a + [Assign(w)])[1..] == a[1..] + [Assign(w)];
      LastAssignWins(a[1..], w, Some(a[0].value));
    }
  }

  /** Break-free statements run in sequence: running them and then `b` is
      running `b` on the value they leave. */
  lemma {:induction false} ExecBreakFreeThen<V>(a: seq<Stmt<V>>, b: seq<Stmt<V>>, v: Option<V>)
    requires forall s :: s in a ==> s.Assign?
    ensures Exec(a + b, v) == Exec(b, Exec(a, v))
    decreases |a|
  {
    if |a| == 0 {
      assert a + b == b;
    } else {
      assert (a + b)[1..] == a[1..] + b;
      ExecBreakFreeThen(a[1..], b, Some(a[0].value));
    }
  }

  /** A statement of the clauses from `from` on belongs to one of those
      clauses. */
  lemma {:induction false} InStatementsFrom<L, V>(clauses: seq<Clause<L, V>>, from: nat, s: Stmt<V>)
    requires s in StatementsFrom(clauses, from)
    ensures exists i :: from <= i < |clauses| && s in clauses[i].body
    decreases |clauses| - from
  {
    if s !in clauses[from].body {
      InStatementsFrom(clauses, from + 1, s);
    }
  }

  /** The variable's value after the whole switch statement, given its value
      `init` before it: unchanged, or a value some clause assigns. */
  function Evaluate<L(==), V>(clauses: seq<Clause<L, V>>, x: L, init: Option<V>): (r: Option<V>)
    ensures r == init || (r.Some? && exists i :: 0 <= i < |clauses| && Assign(r.value) in clauses[i].body)
  {
    match EntryPoint(clauses, x)
    case None => init
    case Some(i) =>
      RunFromOrigin(clauses, i, init);
      Exec(StatementsFrom(clauses, i), init)
  }

  /** Running from clause `from` on keeps `init` or takes a value assigned in
      one of those clauses. */
  lemma RunFromOrigin<L, V>(clauses: seq<Clause<L, V>>, from: nat, init: Option<V>)
    ensures var r := Exec(StatementsFrom(clauses, from), init);
            r == init || (r.Some? && exists i :: from <= i < |clauses| && Assign(r.value) in clauses[i].body)
  {
    var r := Exec(StatementsFrom(clauses, from), init);
    if r != init {
      InStatementsFrom(clauses, from, Assign(r.value));
    }
  }

  /** Entering at clause `k`, whose body runs break-free statements `a` up to
      a `break`, the switch leaves the value those statements leave: the
      clauses after `k` and the rest of its body have no effect. */
  lemma EvaluateEntered<L, V>(clauses: seq<Clause<L, V>>, x: L, init: Option<V>, k: nat,
                              a: seq<Stmt<V>>, b: seq<Stmt<V>>)
    requires EntryPoint(clauses, x) == Some(k)
    requires clauses[k].body == a + [Break] + b
    requires forall s :: s in a ==> s.Assign?
    ensures Evaluate(clauses, x, init) == Exec(a, init)
  {
    var rest := StatementsFrom(clauses, k + 1);
    assert StatementsFrom(clauses, k) == a + [Break] + (b + rest);
    BreakStops(a, b + rest, init);
  }

  /** Fall-through: entering at clause `k`, whose body has no `break`, the
      switch runs that body and then goes on into the clauses after `k` with
      the value the body leaves. */
  lemma EvaluateFallsThrough<L, V>(clauses: seq<Clause<L, V>>, x: L, init: Option<V>, k: nat)
    requires EntryPoint(clauses, x) == Some(k)
    requires forall s :: s in clauses[k].body ==> s.Assign?
    ensures Evaluate(clauses, x, init)
            == Exec(StatementsFrom(clauses, k + 1), Exec(clauses[k].body, init))
  {
    ExecBreakFreeThen(clauses[k].body, StatementsFrom(clauses, k + 1), init);
  }

  /** When no `case` matches and there is no `default`, the switch runs
      nothing and the value is unchanged. */
  lemma EvaluateNoEntry<L, V>(clauses: seq<Clause<L, V>>, x: L, init: Option<V>)
    requires forall i :: 0 <= i < |clauses| ==> !Matches(clauses[i], x) && !clauses[i].Default?
    ensures Evaluate(clauses, x, init) == init
  {
  }

  /** Control enters at a matching `case` when no earlier `case` matches. */
  lemma EntersAtCase<L, V>(clauses: seq<Clause<L, V>>, x: L, k: nat)
    requires k < |clauses| && Matches(clauses[k], x)
    requires forall i :: 0 <= i < k ==> !Matches(clauses[i], x)
    ensures EntryPoint(clauses, x) == Some(k)
  {
  }

  /** Control enters at the first `default` when no `case` matches. */
  lemma EntersAtDefault<L, V>(clauses: seq<Clause<L, V>>, x: L, k: nat)
    requires k < |clauses| && clauses[k].Default?
    requires forall i :: 0 <= i < k ==> !clauses[i].Default?
    requires forall i :: 0 <= i < |clauses| ==> !Matches(clauses[i], x)
    ensures EntryPoint(clauses, x) == Some(k)
  {
  }

  /** An assignment followed by `break` decides the value, whatever follows. */
  lemma AssignThenBreak<V>(w: V, rest: seq<Stmt<V>>, v: Option<V>)
    ensures Exec([Assign(w), Break] + rest, v) == Some(w)
  {
    BreakStops([Assign(w)], rest, v);
  }
}
