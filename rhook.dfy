/** The hook registry and the confirmation step. Hooks accumulate in a
    process-wide set; confirming them rewrites the scratch crate's `lib.rs`
    with the scaffold prologue, drains the set while appending one generated
    trampoline per hook, builds the crate, and on success points the
    command's `LD_PRELOAD` at the built library. The file system and the
    `cargo` subprocesses are modelled as the contents of the two files the
    step writes and a flag saying whether the build succeeds. */
module Rhook {
  import opened Text
  import LibCfn

  /** A hook: the C function it intercepts and the override closure, as source text. */
  datatype Hook = Hook(target: LibCfn.Fn, closure: string)

  /** `hook.function()`: the trampoline the `libc!` generator of the hook's
      target makes from its closure. */
  function Trampoline(h: Hook): string
  {
    LibCfn.Generator(h.target, h.closure)
  }

  /** What `HOOKS` holds. Hooks compare by the function they intercept, so the
      set holds at most one hook per function: a map from the function to the
      closure of its hook. */
  type Registry = map<LibCfn.Fn, string>

  /** `HashSet::insert`: a hook whose function is already registered leaves
      the set as it is; otherwise the hook is added. */
  function Insert(reg: Registry, h: Hook): (r: Registry)
    ensures r.Keys == reg.Keys + {h.target}
    ensures forall f :: f in reg ==> r[f] == reg[f]
    ensures h.target !in reg ==> r[h.target] == h.closure
  {
    if h.target in reg then reg else reg[h.target := h.closure]
  }

  /** Inserting the hooks one after the other, in order. */
  function InsertAll(reg: Registry, hs: seq<Hook>): Registry
  {
    if hs == [] then reg else Insert(InsertAll(reg, hs[..|hs| - 1]), hs[|hs| - 1])
  }

  /** The functions the hooks intercept. */
  function Targets(hs: seq<Hook>): set<LibCfn.Fn>
  {
    set i | 0 <= i < |hs| :: hs[i].target
  }

  /** After registering `hs`, exactly the functions already registered and
      those some hook in `hs` intercepts are registered. */
  lemma {:induction false} InsertAllKeys(reg: Registry, hs: seq<Hook>)
    ensures InsertAll(reg, hs).Keys == reg.Keys + Targets(hs)
  {
    if hs != [] {
      var init := hs[..|hs| - 1];
      InsertAllKeys(reg, init);
      assert Targets(hs) == Targets(init) + {hs[|hs| - 1].target} by {
        forall f | f in Targets(hs) ensures f in Targets(init) + {hs[|hs| - 1].target} {
          var i :| 0 <= i < |hs| && hs[i].target == f;
          if i < |hs| - 1 {
            assert init[i] == hs[i];
          }
        }
        forall f | f in Targets(init) ensures f in Targets(hs) {
          var i :| 0 <= i < |init| && init[i].target == f;
          assert hs[i] == init[i];
        }
      }
    }
  }

  /** A function registered before keeps its hook, whatever is registered later. */
  lemma {:induction false} InsertAllKeepsRegistered(reg: Registry, hs: seq<Hook>, f: LibCfn.Fn)
    requires f in reg
    ensures f in InsertAll(reg, hs) && InsertAll(reg, hs)[f] == reg[f]
  {
    if hs != [] {
      InsertAllKeepsRegistered(reg, hs[..|hs| - 1], f);
    }
  }

  /** Of several hooks for one unregistered function, the first one stays
      registered: the set keeps the element it already holds. */
  lemma {:induction false} InsertAllFirstStays(reg: Registry, hs: seq<Hook>, i: nat)
    requires i < |hs| && hs[i].target !in reg
    requires forall j :: 0 <= j < i ==> hs[j].target != hs[i].target
    ensures hs[i].target in InsertAll(reg, hs) && InsertAll(reg, hs)[hs[i].target] == hs[i].closure
  {
    var init := hs[..|hs| - 1];
    if i == |hs| - 1 {
      InsertAllKeys(reg, init);
      assert hs[i].target !in Targets(init) by {
        forall j | 0 <= j < |init| ensures init[j].target != hs[i].target {
          assert init[j] == hs[j];
        }
      }
    } else {
      assert init[i] == hs[i];
      forall j | 0 <= j < i ensures init[j].target != init[i].target {
        assert init[j] == hs[j];
      }
      InsertAllFirstStays(reg, init, i);
    }
  }

  /** Registering hooks for two different functions in either order gives the
      same registry. */
  lemma InsertCommutes(reg: Registry, h1: Hook, h2: Hook)
    requires h1.target != h2.target
    ensures Insert(Insert(reg, h1), h2) == Insert(Insert(reg, h2), h1)
  {
  }

  /** The trampolines of the hooks of `order`, in that order. */
  function Trampolines(order: seq<LibCfn.Fn>, reg: Registry): (ts: seq<string>)
    requires forall i :: 0 <= i < |order| ==> order[i] in reg
    ensures |ts| == |order|
  {
    if order == [] then []
    else
      var last := order[|order| - 1];
      Trampolines(order[..|order| - 1], reg) + [Trampoline(Hook(last, reg[last]))]
  }

  /** Entry `i` of the trampolines is the trampoline of the hook of `order[i]`. */
  lemma {:induction false} TrampolineAt(order: seq<LibCfn.Fn>, reg: Registry, i: nat)
    requires forall j :: 0 <= j < |order| ==> order[j] in reg
    requires i < |order|
    ensures Trampolines(order, reg)[i] == Trampoline(Hook(order[i], reg[order[i]]))
  {
    var init := order[..|order| - 1];
    if i < |order| - 1 {
      assert init[i] == order[i];
      TrampolineAt(init, reg, i);
    }
  }

  /** The source text appended for the hooks of `order`. */
  function Fragments(order: seq<LibCfn.Fn>, reg: Registry): string
    requires forall i :: 0 <= i < |order| ==> order[i] in reg
  {
    Concat(Trampolines(order, reg))
  }

  /** Appending one more hook's trampoline extends the text by exactly that trampoline. */
  lemma FragmentsSnoc(order: seq<LibCfn.Fn>, reg: Registry, f: LibCfn.Fn)
    requires forall i :: 0 <= i < |order| ==> order[i] in reg
    requires f in reg
    ensures Fragments(order + [f], reg) == Fragments(order, reg) + Trampoline(Hook(f, reg[f]))
  {
    assert (order + [f])[..|order|] == order;
    ConcatSnoc(Trampolines(order, reg), Trampoline(Hook(f, reg[f])));
  }

  /** A file holding `prefix` and the trampolines of `order`, extended by the
      trampoline of `f`, holds `prefix` and the trampolines of `order + [f]`. */
  lemma AppendedInOrder(prefix: string, order: seq<LibCfn.Fn>, reg: Registry, f: LibCfn.Fn)
    requires forall i :: 0 <= i < |order| ==> order[i] in reg
    requires f in reg
    ensures prefix + Fragments(order, reg) + Trampoline(Hook(f, reg[f])) == prefix + Fragments(order + [f], reg)
  {
    FragmentsSnoc(order, reg, f);
    ConcatAssociative(prefix, Fragments(order, reg), Trampoline(Hook(f, reg[f])));
  }

  /** `order` lists every registered function exactly once: a drain order. */
  predicate Enumerates(order: seq<LibCfn.Fn>, reg: Registry)
  {
    Distinct(order) &&
    (forall i :: 0 <= i < |order| ==> order[i] in reg) &&
    (forall f :: f in reg ==> f in order)
  }

  lemma {:induction false} DistinctCard(xs: seq<LibCfn.Fn>)
    requires Distinct(xs)
    ensures |set x | x in xs| == |xs|
  {
    if xs != [] {
      var init := xs[..|xs| - 1];
      assert Distinct(init);
      DistinctCard(init);
      assert (set x | x in xs) == (set x | x in init) + {xs[|xs| - 1]};
      assert xs[|xs| - 1] !in init;
    }
  }

  /** A drain order has one entry per registered hook. */
  lemma EnumerationSize(order: seq<LibCfn.Fn>, reg: Registry)
    requires Enumerates(order, reg)
    ensures |order| == |reg|
  {
    DistinctCard(order);
    assert (set x | x in order) == reg.Keys;
  }

  /** Each hook of a drain order has its trampoline in the concatenation. */
  lemma TrampolineEmitted(order: seq<LibCfn.Fn>, reg: Registry, i: nat)
    requires forall j :: 0 <= j < |order| ==> order[j] in reg
    requires i < |order|
    ensures IsInfix(Trampoline(Hook(order[i], reg[order[i]])), Fragments(order, reg))
  {
    TrampolineAt(order, reg, i);
    ConcatHasEach(Trampolines(order, reg), i);
  }

  /** Every registered hook's trampoline is in the text appended by a drain. */
  lemma HookEmitted(order: seq<LibCfn.Fn>, reg: Registry, f: LibCfn.Fn)
    requires Enumerates(order, reg) && f in reg
    ensures IsInfix(Trampoline(Hook(f, reg[f])), Fragments(order, reg))
  {
    var i :| 0 <= i < |order| && order[i] == f;
    TrampolineEmitted(order, reg, i);
  }

  /** Midway through a drain of `reg`: `pending` holds the hooks not yet
      taken, and `drained` lists, once each, the functions already taken. */
  predicate Draining(reg: Registry, pending: Registry, drained: seq<LibCfn.Fn>)
  {
    (forall f :: f in pending ==> f in reg && pending[f] == reg[f]) &&
    Distinct(drained) &&
    (forall i :: 0 <= i < |drained| ==> drained[i] in reg && drained[i] !in pending) &&
    (forall f :: f in reg ==> f in pending || f in drained)
  }

  /** Taking one more pending hook keeps the drain state. */
  lemma DrainStep(reg: Registry, pending: Registry, drained: seq<LibCfn.Fn>, f: LibCfn.Fn)
    requires Draining(reg, pending, drained) && f in pending
    ensures f in reg && pending[f] == reg[f]
    ensures forall i :: 0 <= i < |drained| ==> drained[i] in reg
    ensures Draining(reg, pending - {f}, drained + [f])
  {
    var next := drained + [f];
    forall i, j | 0 <= i < j < |next| ensures next[i] != next[j] {
      if j < |drained| {
        assert next[i] == drained[i] && next[j] == drained[j];
      } else {
        assert next[i] == drained[i];
      }
    }
  }

  /** A drain with nothing pending has listed every registered function once. */
  lemma DrainDone(reg: Registry, pending: Registry, drained: seq<LibCfn.Fn>)
    requires Draining(reg, pending, drained) && pending == map[]
    ensures Enumerates(drained, reg)
  {
  }

  /** The scaffold prologue (`src/scaffold.rs`) written at the head of `lib.rs`. */
  const Scaffold: string :=
    "#![allow(non_snake_case)]\n#![allow(non_camel_case_types)]\n#![allow(dead_code)]\n"
    + "#![allow(unused_imports)]\n\nuse libc::*;\nuse std::cell::RefCell;\nuse std::ffi::CString;\n"
    + "use std::mem::transmute;\nuse std::mem::ManuallyDrop;\n\nthread_local! {\n"
    + "    static COUNTER: RefCell<isize> = RefCell::new(0);\n}\n"

  /** The manifest of the scratch crate: a `dylib` named `rhookdyl` depending on `libc`. */
  const CargoToml: string :=
    "[package]\nname = \"rhookdyl\"\nversion = \"0.1.0\"\nedition = \"2018\"\n[lib]\n"
    + "crate-type = [\"dylib\"]\n[dependencies]\nlibc = \"0.2.92\""

  const PreloadVariable := "LD_PRELOAD"
  const LibraryPath := "/tmp/rhookdyl/target/debug/librhookdyl.so"
  const BuildFailure := "failed to compile the dynamic library"

  datatype Result<T> = Ok(value: T) | Err(message: string)

  /** The part of `std::process::Command` the confirmation touches: the
      environment given to the child. */
  class Command {
    var envs: map<string, string>

    constructor ()
      ensures envs == map[]
    {
      envs := map[];
    }

    /** `Command::env`: sets one variable for the child; returns the same command. */
    method Env(key: string, val: string) returns (self: Command)
      modifies this
      ensures envs == old(envs)[key := val] && self == this
    {
      envs := envs[key := val];
      self := this;
    }
  }

  /** `build_dylib`: runs `cargo b` in the scratch crate; `cargoSucceeds` is
      whether that build exits successfully. */
  method BuildDylib(cargoSucceeds: bool) returns (r: Result<()>)
    ensures cargoSucceeds <==> r.Ok?
    ensures !cargoSucceeds ==> r.message == BuildFailure
  {
    if cargoSucceeds {
      r := Ok(());
    } else {
      r := Err(BuildFailure);
    }
  }

  /** The process-wide state: the `HOOKS` set and the two files of the
      scratch crate in `/tmp/rhookdyl`. */
  class Host {
    var hooks: Registry
    var libRs: string
    var cargoToml: string

    /** A fresh process: no hooks yet; the scratch files hold whatever an
        earlier run left there. */
    constructor (libRs0: string, cargoToml0: string)
      ensures hooks == map[] && libRs == libRs0 && cargoToml == cargoToml0
    {
      hooks := map[];
      libRs := libRs0;
      cargoToml := cargoToml0;
    }

    /** `RunHook::add_hook`: inserts the hook into the set; returns the same command. */
    method AddHook(cmd: Command, h: Hook) returns (self: Command)
      modifies this`hooks
      ensures hooks == Insert(old(hooks), h) && self == cmd
    {
      hooks := Insert(hooks, h);
      self := cmd;
    }

    /** `RunHook::add_hooks`: `add_hook` on each hook, in order. */
    method AddHooks(cmd: Command, hs: seq<Hook>) returns (self: Command)
      modifies this`hooks
      ensures hooks == InsertAll(old(hooks), hs) && self == cmd
    {
      for i := 0 to |hs|
        invariant hooks == InsertAll(old(hooks), hs[..i])
      {
        assert hs[..i + 1][..i] == hs[..i];
        var _ := AddHook(cmd, hs[i]);
      }
      assert hs[..|hs|] == hs;
      self := cmd;
    }

    /** `prepare`: (re)writes the manifest and overwrites `lib.rs` with the
        scaffold, whatever the files held before; `cargo new` failing because
        the crate exists is ignored. */
    method Prepare()
      modifies this`libRs, this`cargoToml
      ensures libRs == Scaffold && cargoToml == CargoToml
    {
      cargoToml := CargoToml;
      libRs := Scaffold;
    }

    /** `append`: adds the text at the end of `lib.rs`. */
    method Append(fragment: string)
      modifies this`libRs
      ensures libRs == old(libRs) + fragment
    {
      libRs := libRs + fragment;
    }

    /** The loop of `set_hooks`: takes every hook out of the set, appending
        its trampoline to `lib.rs`. The set yields its hooks in an order the
        model leaves open; `drained` records the order taken. */
    method Drain() returns (ghost drained: seq<LibCfn.Fn>)
      modifies this`hooks, this`libRs
      ensures hooks == map[]
      ensures Enumerates(drained, old(hooks))
      ensures libRs == old(libRs) + Fragments(drained, old(hooks))
    {
      var pending := hooks;
      hooks := map[];
      drained := [];
      while pending != map[]
        invariant hooks == map[]
        invariant Draining(old(hooks), pending, drained)
        invariant libRs == old(libRs) + Fragments(drained, old(hooks))
        decreases |pending|
      {
        var f :| f in pending;
        DrainStep(old(hooks), pending, drained, f);
        Append(Trampoline(Hook(f, pending[f])));
        AppendedInOrder(old(libRs), drained, old(hooks), f);
        drained := drained + [f];
        pending := pending - {f};
      }
      DrainDone(old(hooks), pending, drained);
    }

    /** `RunHook::set_hooks` for a command: prepare the crate, drain the set
        appending each hook's trampoline, build, and on success set
        `LD_PRELOAD` to the built library and return the same command. */
    method SetHooks(cmd: Command, cargoSucceeds: bool) returns (r: Result<Command>, ghost drained: seq<LibCfn.Fn>)
      modifies this, cmd
      ensures hooks == map[]
      ensures Enumerates(drained, old(hooks))
      ensures libRs == Scaffold + Fragments(drained, old(hooks))
      ensures cargoToml == CargoToml
      ensures cargoSucceeds ==> r == Ok(cmd) && cmd.envs == old(cmd.envs)[PreloadVariable := LibraryPath]
      ensures !cargoSucceeds ==> r == Err(BuildFailure) && cmd.envs == old(cmd.envs)
    {
      Prepare();
      drained := Drain();
      var built := BuildDylib(cargoSucceeds);
      if built.Err? {
        r := Err(built.message);
        return;
      }
      var self := cmd.Env(PreloadVariable, LibraryPath);
      r := Ok(self);
    }
  }

  /** Registering a list of hooks and then another gives what registering
      the two lists as one gives. */
  lemma {:induction false} InsertAllAppend(reg: Registry, a: seq<Hook>, b: seq<Hook>)
    ensures InsertAll(InsertAll(reg, a), b) == InsertAll(reg, a + b)
  {
    if b == [] {
      assert a + b == a;
    } else {
      var init := b[..|b| - 1];
      InsertAllAppend(reg, a, init);
      assert (a + b)[..|a + b| - 1] == a + init;
      assert (a + b)[|a + b| - 1] == b[|b| - 1];
    }
  }

  /** Registering one hook with `add_hook` is registering the list holding it. */
  lemma InsertSingle(reg: Registry, h: Hook)
    ensures InsertAll(reg, [h]) == Insert(reg, h)
  {
    assert [h][..0] == [];
  }

  /** The registration calls of the multi-hook example, `add_hooks` of a
      `read` and an `open` hook, `add_hook` of a `read` hook, `add_hooks` of
      one `read` hook and `add_hook` of another, leave one hook for `read`
      and one for `open`: the first ones registered for each. */
  lemma MultiHookRegistration()
    ensures var r := Insert(InsertAll(Insert(InsertAll(map[], [Hook(LibCfn.Read, "|| { Some(0) }"),
                                                               Hook(LibCfn.Open, "|| { None }")]),
                                             Hook(LibCfn.Read, "|| { Some(4) }")),
                                      [Hook(LibCfn.Read, "|| { Some(3) }")]),
                           Hook(LibCfn.Read, "|| { Some(1) }"));
            r.Keys == {LibCfn.Read, LibCfn.Open} &&
            r[LibCfn.Read] == "|| { Some(0) }" && r[LibCfn.Open] == "|| { None }"
  {
    var h0, h1 := Hook(LibCfn.Read, "|| { Some(0) }"), Hook(LibCfn.Open, "|| { None }");
    var base := InsertAll(map[], [h0, h1]);
    InsertAllKeys(map[], [h0, h1]);
    assert Targets([h0, h1]) == {LibCfn.Read, LibCfn.Open};
    InsertAllFirstStays(map[], [h0, h1], 0);
    InsertAllFirstStays(map[], [h0, h1], 1);
    RegisteredIgnored(base, Hook(LibCfn.Read, "|| { Some(4) }"), Hook(LibCfn.Read, "|| { Some(3) }"),
                      Hook(LibCfn.Read, "|| { Some(1) }"));
  }

  /** Hooks for functions that are all registered already change nothing. */
  lemma {:induction false} RegisteredListIgnored(base: Registry, hs: seq<Hook>)
    requires forall i :: 0 <= i < |hs| ==> hs[i].target in base
    ensures InsertAll(base, hs) == base
  {
    if hs != [] {
      RegisteredListIgnored(base, hs[..|hs| - 1]);
    }
  }

  /** The example's case: once its function is registered, a hook added by
      `add_hook`, `add_hooks` and `add_hook` again changes nothing. */
  lemma RegisteredIgnored(base: Registry, h2: Hook, h3: Hook, h4: Hook)
    requires h2.target in base && h3.target in base && h4.target in base
    ensures Insert(InsertAll(Insert(base, h2), [h3]), h4) == base
  {
    RegisteredListIgnored(base, [h3]);
  }
}
