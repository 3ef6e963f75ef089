/**
  The environment guard of the test utilities: it records the value of every
  variable before changing it and replays the records backwards when dropped.
  Values that are not valid Unicode are read as absent.
 */
module EnvGuards {
  import opened Text

  type Name = string

  datatype Value = Unicode(text: string) | NotUnicode(bytes: seq<nat>)

  type Variables = map<Name, Value>

  datatype Saved = Saved(name: Name, original: Option<string>)

  datatype Mutation = Assign(name: Name, value: string) | Unset(name: Name)

  /** The process environment and what a guard has recorded about it. */
  datatype State = State(vars: Variables, log: seq<Saved>)

  function Get(vars: Variables, name: Name): Option<Value> {
    if name in vars then Some(vars[name]) else None
  }

  /** `env::var(name).ok()` */
  function Read(vars: Variables, name: Name): Option<string> {
    match Get(vars, name)
    case Some(Unicode(text)) => Some(text)
    case _ => None
  }

  function Write(vars: Variables, name: Name, value: Option<string>): Variables {
    if value.Some? then vars[name := Unicode(value.value)] else vars - {name}
  }

  function Mutate(vars: Variables, m: Mutation): Variables {
    Write(vars, m.name, if m.Assign? then Some(m.value) else None)
  }

  function Apply(s: State, m: Mutation): State {
    State(Mutate(s.vars, m), s.log + [Saved(m.name, Read(s.vars, m.name))])
  }

  function ApplyAll(s: State, ms: seq<Mutation>): State
    decreases |ms|
  {
    if ms == [] then s else Apply(ApplyAll(s, ms[..|ms| - 1]), ms[|ms| - 1])
  }

  /** Replays the records, latest first. */
  function Unwind(vars: Variables, log: seq<Saved>): Variables
    decreases |log|
  {
    if log == [] then vars
    else
      var last := log[|log| - 1];
      Unwind(Write(vars, last.name, last.original), log[..|log| - 1])
  }

  predicate Touched(ms: seq<Mutation>, name: Name) {
    exists i :: 0 <= i < |ms| && ms[i].name == name
  }

  predicate Recorded(log: seq<Saved>, name: Name) {
    exists i :: 0 <= i < |log| && log[i].name == name
  }

  /** Records decide the value of their variables; other variables keep theirs. */
  lemma {:induction false} UnwindAgrees(a: Variables, b: Variables, log: seq<Saved>, name: Name)
    requires Recorded(log, name) || Get(a, name) == Get(b, name)
    ensures Get(Unwind(a, log), name) == Get(Unwind(b, log), name)
    decreases |log|
  {
    if log != [] {
      var n := |log| - 1;
      var last := log[n];
      if last.name != name && Recorded(log, name) {
        var i :| 0 <= i < |log| && log[i].name == name;
        assert log[..n][i].name == name;
      }
      UnwindAgrees(Write(a, last.name, last.original), Write(b, last.name, last.original), log[..n], name);
    }
  }

  lemma {:induction false} UnwindLeavesOthers(vars: Variables, log: seq<Saved>, name: Name)
    requires !Recorded(log, name)
    ensures Get(Unwind(vars, log), name) == Get(vars, name)
    decreases |log|
  {
    if log != [] {
      var n := |log| - 1;
      assert log[n].name != name;
      assert forall i :: 0 <= i < n ==> log[..n][i] == log[i];
      UnwindLeavesOthers(Write(vars, log[n].name, log[n].original), log[..n], name);
    }
  }

  /** The environment after the guard: as before, but touched variables that were not Unicode are gone. */
  ghost function Restored(start: Variables, ms: seq<Mutation>): Variables {
    map name | name in start && (start[name].Unicode? || !Touched(ms, name)) :: start[name]
  }

  /** The guard's invariant about one variable. */
  ghost predicate Undoable(s: State, start: Variables, name: Name, touched: bool) {
    && (touched <==> Recorded(s.log, name))
    && (if touched then Get(s.vars, name) != None ==> Get(s.vars, name).value.Unicode? else Get(s.vars, name) == Get(start, name))
    && Get(Unwind(s.vars, s.log), name) == if touched && name in start && start[name].NotUnicode? then None else Get(start, name)
  }

  lemma RecordedSnoc(log: seq<Saved>, x: Saved, name: Name)
    ensures Recorded(log + [x], name) <==> Recorded(log, name) || x.name == name
  {
    assert (log + [x])[|log|] == x;
    if Recorded(log, name) {
      var i :| 0 <= i < |log| && log[i].name == name;
      assert (log + [x])[i].name == name;
    }
  }

  lemma TouchedSnoc(ms: seq<Mutation>, m: Mutation, name: Name)
    ensures Touched(ms + [m], name) <==> Touched(ms, name) || m.name == name
  {
    assert (ms + [m])[|ms|] == m;
    if Touched(ms, name) {
      var i :| 0 <= i < |ms| && ms[i].name == name;
      assert (ms + [m])[i].name == name;
    }
  }

  lemma ApplyUndoable(s: State, m: Mutation, start: Variables, name: Name, touched: bool)
    requires Undoable(s, start, name, touched)
    ensures Undoable(Apply(s, m), start, name, touched || m.name == name)
  {
    var saved := Saved(m.name, Read(s.vars, m.name));
    var t := Apply(s, m);
    RecordedSnoc(s.log, saved, name);
    assert t.log[..|s.log|] == s.log;
    var back := Write(t.vars, saved.name, saved.original);
    assert Unwind(t.vars, t.log) == Unwind(back, s.log);
    if Recorded(s.log, name) || name != m.name {
      UnwindAgrees(back, s.vars, s.log, name);
    } else {
      UnwindLeavesOthers(back, s.log, name);
    }
  }

  lemma {:induction false} ApplyAllUndoable(start: Variables, ms: seq<Mutation>, name: Name)
    ensures Undoable(ApplyAll(State(start, []), ms), start, name, Touched(ms, name))
    decreases |ms|
  {
    if ms != [] {
      var n := |ms| - 1;
      ApplyAllUndoable(start, ms[..n], name);
      ApplyUndoable(ApplyAll(State(start, []), ms[..n]), ms[n], start, name, Touched(ms[..n], name));
      assert ms == ms[..n] + [ms[n]];
      TouchedSnoc(ms[..n], ms[n], name);
    }
  }

  /** For every start and every list of changes, replaying the records gives the restored environment. */
  lemma UnwindRestores(start: Variables, ms: seq<Mutation>)
    ensures var s := ApplyAll(State(start, []), ms); Unwind(s.vars, s.log) == Restored(start, ms)
  {
    var s := ApplyAll(State(start, []), ms);
    var end := Unwind(s.vars, s.log);
    forall name: Name ensures Get(end, name) == Get(Restored(start, ms), name) {
      ApplyAllUndoable(start, ms, name);
    }
    SameLookups(end, Restored(start, ms));
  }

  lemma SameLookups(a: Variables, b: Variables)
    requires forall name: Name :: Get(a, name) == Get(b, name)
    ensures a == b
  {
    forall name: Name ensures name in a <==> name in b {
      assert Get(a, name) == Get(b, name);
    }
    forall name: Name | name in a ensures a[name] == b[name] {
      assert Get(a, name) == Get(b, name);
    }
  }

  /** Replaying the records gives back the start exactly when no touched variable held a value that is not Unicode. */
  lemma RestoredExactlyWhen(start: Variables, ms: seq<Mutation>)
    ensures var s := ApplyAll(State(start, []), ms);
            Unwind(s.vars, s.log) == start <==> forall name :: name in start && Touched(ms, name) ==> start[name].Unicode?
  {
    UnwindRestores(start, ms);
    if Restored(start, ms) == start {
      forall name | name in start && Touched(ms, name) ensures start[name].Unicode? {
        assert name in Restored(start, ms);
      }
    }
  }

  /** The value a variable has after the changes: what the last change of it says, or its value at the start. */
  function Current(start: Variables, ms: seq<Mutation>, name: Name): Option<Value>
    decreases |ms|
  {
    if ms == [] then Get(start, name)
    else
      match ms[|ms| - 1]
      case Assign(n, value) => if n == name then Some(Unicode(value)) else Current(start, ms[..|ms| - 1], name)
      case Unset(n) => if n == name then None else Current(start, ms[..|ms| - 1], name)
  }

  /** While the guard lives, every variable has the value its last change gave it. */
  lemma {:induction false} GuardedValue(start: Variables, ms: seq<Mutation>, name: Name)
    ensures Get(ApplyAll(State(start, []), ms).vars, name) == Current(start, ms, name)
    decreases |ms|
  {
    if ms != [] {
      GuardedValue(start, ms[..|ms| - 1], name);
    }
  }

  lemma ApplyAllSnoc(s: State, ms: seq<Mutation>, m: Mutation)
    ensures ApplyAll(s, ms + [m]) == Apply(ApplyAll(s, ms), m)
  {
    assert (ms + [m])[..|ms|] == ms;
  }

  function Unsets(names: seq<Name>): seq<Mutation> {
    seq(|names|, i requires 0 <= i < |names| => Unset(names[i]))
  }

  function Assigns(pairs: seq<(Name, string)>): seq<Mutation> {
    seq(|pairs|, i requires 0 <= i < |pairs| => Assign(pairs[i].0, pairs[i].1))
  }

  /** The process environment. */
  class Environment {
    var vars: Variables

    constructor (start: Variables)
      ensures vars == start
    {
      vars := start;
    }
  }

  class EnvGuard {
    const env: Environment
    var originals: seq<Saved>

    ghost function Now(): State
      reads this, env
    {
      State(env.vars, originals)
    }

    /** `clean`: removes the variables. */
    constructor Clean(e: Environment, names: seq<Name>)
      modifies e
      ensures env == e
      ensures Now() == ApplyAll(State(old(e.vars), []), Unsets(names))
    {
      env := e;
      var saved: seq<Saved> := [];
      ghost var start := State(e.vars, []);
      for i := 0 to |names|
        invariant State(e.vars, saved) == ApplyAll(start, Unsets(names[..i]))
      {
        saved := saved + [Saved(names[i], Read(e.vars, names[i]))];
        e.vars := Write(e.vars, names[i], None);
        assert Unsets(names[..i + 1]) == Unsets(names[..i]) + [Unset(names[i])];
        ApplyAllSnoc(start, Unsets(names[..i]), Unset(names[i]));
      }
      assert names[..|names|] == names;
      originals := saved;
    }

    /** `with`: sets the variables; a name may come more than once. */
    constructor With(e: Environment, pairs: seq<(Name, string)>)
      modifies e
      ensures env == e
      ensures Now() == ApplyAll(State(old(e.vars), []), Assigns(pairs))
    {
      env := e;
      var saved: seq<Saved> := [];
      ghost var start := State(e.vars, []);
      for i := 0 to |pairs|
        invariant State(e.vars, saved) == ApplyAll(start, Assigns(pairs[..i]))
      {
        var (name, value) := pairs[i];
        saved := saved + [Saved(name, Read(e.vars, name))];
        e.vars := Write(e.vars, name, Some(value));
        assert Assigns(pairs[..i + 1]) == Assigns(pairs[..i]) + [Assign(name, value)];
        ApplyAllSnoc(start, Assigns(pairs[..i]), Assign(name, value));
      }
      assert pairs[..|pairs|] == pairs;
      originals := saved;
    }

    method Set(name: Name, value: string)
      modifies this, env
      ensures Now() == Apply(old(Now()), Assign(name, value))
    {
      originals := originals + [Saved(name, Read(env.vars, name))];
      env.vars := Write(env.vars, name, Some(value));
    }

    method Remove(name: Name)
      modifies this, env
      ensures Now() == Apply(old(Now()), Unset(name))
    {
      originals := originals + [Saved(name, Read(env.vars, name))];
      env.vars := Write(env.vars, name, None);
    }

    /**
      `drop`, for a guard that has made the changes `ms` since `start`: the
      environment is as it was at the start, except for touched variables that were
      not Unicode.
     */
    method Drop(ghost start: Variables, ghost ms: seq<Mutation>)
      requires Now() == ApplyAll(State(start, []), ms)
      modifies env
      ensures env.vars == Unwind(old(env.vars), originals)
      ensures env.vars == Restored(start, ms)
    {
      var i := |originals|;
      assert originals[..i] == originals;
      while i > 0
        invariant 0 <= i <= |originals|
        invariant Unwind(env.vars, originals[..i]) == Unwind(old(env.vars), originals)
      {
        i := i - 1;
        assert originals[..i + 1][..i] == originals[..i];
        env.vars := Write(env.vars, originals[i].name, originals[i].original);
      }
      UnwindRestores(start, ms);
    }
  }

  datatype Opening = Cleaning(names: seq<Name>) | Setting(pairs: seq<(Name, string)>)

  function Opened(o: Opening): seq<Mutation> {
    match o
    case Cleaning(names) => Unsets(names)
    case Setting(pairs) => Assigns(pairs)
  }

  /** A whole life of a guard: every constructor list, then every list of changes, then drop. */
  method Lifetime(e: Environment, opening: Opening, changes: seq<Mutation>)
    modifies e
    ensures e.vars == Restored(old(e.vars), Opened(opening) + changes)
  {
    ghost var start, first := State(e.vars, []), Opened(opening);
    var guard: EnvGuard;
    if opening.Cleaning? {
      guard := new EnvGuard.Clean(e, opening.names);
    } else {
      guard := new EnvGuard.With(e, opening.pairs);
    }
    assert first + changes[..0] == first;
    for i := 0 to |changes|
      invariant guard.env == e
      invariant guard.Now() == ApplyAll(start, first + changes[..i])
    {
      match changes[i] {
        case Assign(name, value) => guard.Set(name, value);
        case Unset(name) => guard.Remove(name);
      }
      assert first + changes[..i + 1] == (first + changes[..i]) + [changes[i]];
      ApplyAllSnoc(start, first + changes[..i], changes[i]);
    }
    assert changes[..|changes|] == changes;
    guard.Drop(start.vars, first + changes);
  }
}
