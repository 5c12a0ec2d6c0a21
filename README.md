# Rhook, modelled in Dafny

Rhook lets a Rust program override libc functions in a child process. The user
registers *hooks* on a `std::process::Command`; each hook pairs one C function
(`open`, `opendir`, `recv`, `read`, `recv_msg`) with the source text of an
override closure. Confirming the hooks (`set_hooks`) does four things:

1. It writes a scratch crate in `/tmp/rhookdyl` whose `lib.rs` starts with a fixed prologue.
2. It drains the registry, appending one generated `#[no_mangle] extern "C"` trampoline per hook.
   Each trampoline looks up the original symbol with `dlsym(RTLD_NEXT, …)`, rebinds it as `original_<name>` and calls the closure with the arguments.
3. It builds the crate with `cargo`.
4. On success, it points the command's `LD_PRELOAD` at the built library.

The project models three parts of the crate:

- `text.dfy` (`Text`): shared text utilities.
  - Comma-terminated and comma-separated lists, and reading them back.
  - Splicing a fragment between a fixed prefix and suffix, and undoing it.
  - Occurrence of a substring, character counts, and concatenation of a list of strings.
- `libcfn.dfy` (`LibCfn`): the `libc!` macro of `src/libcfn.rs`.
  - Its signature catalogue is a datatype.
  - Each generator is a pure function from closure text to trampoline text.
  - Lemmas cover the signature prefix, the `dlsym` lookup by name plus NUL, and the rebinding to the pointer type.
  - They also cover the closure applied verbatim to the argument tuple, agreement of the three parameter lists, brace balance, and recoverability and injectivity in the closure.
- `libc.dfy` (`LibC`): the older hand-written generators of `src/libc.rs`.
  - `remove_last_char` is a method over a mutable `RustString` whose `Pop` is `String::pop`.
  - The four generators are functions.
  - Lemmas show where the closure is spliced, that it is recoverable and injective, and that every generator passes its arguments in declaration order.
- `rhook.dfy` (`Rhook`): the registry and the confirmation step of `src/lib.rs`.
  - A `Host` object holds the `HOOKS` set and the contents of the two scratch files. `Command` holds the child's environment.
  - `AddHook`, `AddHooks`, `Prepare`, `Append` and `SetHooks` change this state in place.
  - `SetHooks` leaves the registry empty, and leaves `lib.rs` as the scaffold followed by one trampoline per drained hook.
  - It sets `LD_PRELOAD` only when the build succeeds.

Two texts differ in the terminator after the function name. The `libc!` format string writes `\0` inside an ordinary Rust string literal, so the trampoline text holds a real NUL character. `stringify!` in `src/libc.rs` keeps tokens as written, so those trampolines hold the two characters backslash and `0`; it also keeps the comma `recv`'s skeleton writes after its last parameter (src/libc.rs:36).

Two hooks for the same function: `add_hook` inserts into a `HashSet` (src/lib.rs:82), and `HashSet::insert` leaves the set unchanged when an equal hook is already present. So the first registration for a function stays, and a caller cannot replace a hook by registering another. This assumes hooks compare equal exactly when they target the same function; `src/hook.rs`, where `Hook`'s `Eq` and `Hash` are defined, is not part of this model.

## Model

| member | source | states |
|---|---|---|
| LibCfn.Sig | src/libcfn.rs:20-29 | no contract; the catalogue: one signature per `libc!(fn …)` line, names, parameters in order and return type as written |
| LibCfn.FunctionType | src/libcfn.rs:11 | no contract; `function_type`, the `stringify!` of the exported signature, each parameter declaration followed by a comma |
| LibCfn.FunctionTypeWithoutVars | src/libcfn.rs:12 | no contract; `function_type_without_vars`, the `stringify!` of the function-pointer type, each parameter type followed by a comma |
| LibCfn.FunctionVars | src/libcfn.rs:13 | no contract; `function_vars`, the `stringify!` of the argument tuple, each parameter name followed by a comma |
| LibCfn.Generate | src/libcfn.rs:4-15 | no contract; the text the `format!` renders for a signature and a closure, line by line |
| LibCfn.Generator | src/libcfn.rs:3 | no contract; the generator `libcfn::<name>(fun)` the macro defines for one catalogued function |
| LibCfn.GenerateSplice | src/libcfn.rs:4-15 | the generated text is a prefix fixed by the signature, the closure text verbatim, then a suffix fixed by the signature |
| LibCfn.SignatureFirst | src/libcfn.rs:4-11 | the text starts with `#[no_mangle] pub unsafe extern "C" fn <name>(`, indeed with the whole exported signature, and the next thing after it is the body's opening brace |
| LibCfn.ResolvesOriginal | src/libcfn.rs:6 | the body contains `let original_<name> = dlsym(RTLD_NEXT, "<name>\0"` with the generator's own name followed by NUL |
| LibCfn.RebindsOriginal | src/libcfn.rs:7 | the body rebinds `original_<name>` to the `extern "C" fn(<types>) -> <ret>` pointer type built from the signature via `transmute` |
| LibCfn.ClosureApplied | src/libcfn.rs:8 | the closure text appears verbatim in parentheses, immediately followed by the argument tuple |
| LibCfn.SignatureAgreement | src/libcfn.rs:11-13 | for a well-formed signature, the three lists read back from the generated pieces give the declarations in order, the same types in the same order, and the names in declaration order; declaration i is name i, `: `, type i |
| LibCfn.RecoverClosure | src/libcfn.rs:4-15 | the closure is recovered from the generated text |
| LibCfn.ExtractSound | src/libcfn.rs:4-15 | any closure read back from a text regenerates exactly that text |
| LibCfn.GenerateInjective | src/libcfn.rs:4-15 | for a fixed signature, different closures give different trampolines |
| LibCfn.BodyBraces | src/libcfn.rs:5-10 | the template adds exactly one `{` and one `}` to those of the closure, and the text ends with that `}` followed by the format string's trailing line |
| LibCfn.Catalogue | src/libcfn.rs:20-29 | exactly five generators, named `open`, `opendir`, `recv`, `read`, `recv_msg`, with 2, 1, 4, 3 and 3 parameters; different generators have different names |
| LibCfn.CatalogueWellFormed | src/libcfn.rs:20-29 | in every catalogued signature the parameter names and types hold no comma or brace, and the function name and return type hold no brace, so the lemmas above apply to every generator |
| LibC.RustString.Pop | src/libc.rs:72 | on a non-empty string, removes and returns its last character; on the empty string, returns nothing and changes nothing |
| LibC.WithoutLastChar | src/libc.rs:70-74 | the empty string maps to itself; otherwise the result followed by the input's last character is the input |
| LibC.RemoveLastChar | src/libc.rs:70-74 | on a non-empty input, returns the input without its last character (one shorter, a prefix); on the empty input, returns the empty string |
| LibC.Skeleton | src/libc.rs:2-10 | no contract; the text `stringify!` gives for a skeleton: exported signature (with the trailing comma `recv` writes at src/libc.rs:36), `dlsym` lookup with the escape `\0`, rebinding through `transmute`, closing brace |
| LibC.CallArgs | src/libc.rs:12 | no contract; the argument list each generator's `format!` writes after the closure, as written in src/libc.rs:12, 26, 45 and 59 |
| LibC.Generate | src/libc.rs:1-60 | no contract; the skeleton without its last character, then `(` closure `)`, the argument list and `}` |
| LibC.SkeletonClosed | src/libc.rs:2-10 | the stringified skeleton ends with the closing brace of the function body |
| LibC.SplicedBeforeClosingBrace | src/libc.rs:11-12 | the skeleton is the body plus `}`, and the generator's output is that body, `(` + closure + `)`, the argument list, then `}` again |
| LibC.ClosureVerbatim | src/libc.rs:11-12 | the output contains the closure verbatim and ends with `}` |
| LibC.RecoverClosure | src/libc.rs:11-12 | the closure is recovered from a generator's output |
| LibC.ExtractSound | src/libc.rs:11-12 | any closure read back from a text regenerates exactly that text |
| LibC.GenerateInjective | src/libc.rs:1-60 | for each of the four generators, different closures give different outputs |
| LibC.ArgumentsInDeclaredOrder | src/libc.rs:1-60 | the argument list each generator writes after the closure names the skeleton's parameters in declaration order |
| LibC.OpenArguments | src/libc.rs:4-12 | `open` passes `path, oflag`, matching its declared parameters |
| LibC.OpendirArguments | src/libc.rs:18-26 | `opendir` passes the single argument `dirname` |
| LibC.RecvArguments | src/libc.rs:32-45 | `recv` passes `socket, buf, len, flags`, matching its declared parameters |
| LibC.ReadArguments | src/libc.rs:51-59 | `read` passes `fd,buf,count`, matching its declared parameters |
| Rhook.Insert | src/lib.rs:81-84 | afterwards the hook's function is registered and nothing else is added; registered functions keep their hooks; an unregistered function gets this hook |
| Rhook.InsertAll | src/lib.rs:86-91 | no contract; the registry after inserting the hooks one by one in order, as the loop of `add_hooks` does |
| Rhook.InsertAllAppend | src/lib.rs:86-91 | registering one list of hooks and then another gives the registry that registering their concatenation gives |
| Rhook.InsertSingle | src/lib.rs:81-91 | `add_hooks` of a one-hook list registers what `add_hook` of that hook registers |
| Rhook.InsertAllKeys | src/lib.rs:86-91 | after registering a list of hooks, exactly the earlier functions and those the list targets are registered |
| Rhook.InsertAllKeepsRegistered | src/lib.rs:81-91 | a function already registered keeps its hook whatever is registered later |
| Rhook.InsertAllFirstStays | src/lib.rs:81-91 | of several hooks for one unregistered function, the first stays registered |
| Rhook.InsertCommutes | src/lib.rs:81-84 | registering hooks for two different functions in either order gives the same registry |
| Rhook.MultiHookRegistration | examples/multi_hooks.rs:8-14 | the example's four calls, `add_hooks` of a `read` and an `open` hook, then `add_hook`, `add_hooks` and `add_hook` of more `read` hooks, leave exactly `read` and `open` registered, with the first `read` closure (the one returning `Some(0)`) and the `open` closure (returning `None`) |
| Rhook.RegisteredListIgnored | src/lib.rs:81-91 | registering any list of hooks whose functions are all registered already leaves the registry unchanged |
| Rhook.RegisteredIgnored | src/lib.rs:81-91 | hooks for already registered functions, added by `add_hook`, `add_hooks` and `add_hook`, leave the registry unchanged |
| Rhook.Host.constructor | src/lib.rs:72 | a fresh process has no hooks (`HOOKS` starts as an empty set); the scratch files hold whatever an earlier run left |
| Rhook.Host.AddHook | src/lib.rs:81-84 | the registry becomes the insertion of the hook into the old registry; the same command is returned |
| Rhook.Host.AddHooks | src/lib.rs:86-91 | the registry becomes the old one with the hooks inserted one by one in order |
| Rhook.Scaffold | src/lib.rs:131 | no contract; the text of src/scaffold.rs that `include_str!` writes as the scratch crate's `lib.rs` |
| Rhook.CargoToml | src/lib.rs:111-118 | no contract; `CARGO_TOML`, the manifest written as the scratch crate's `Cargo.toml` |
| Rhook.Host.Prepare | src/lib.rs:110-133 | `lib.rs` becomes the scaffold and `Cargo.toml` the fixed manifest, whatever they held before (so a second call changes nothing) |
| Rhook.Host.Append | src/lib.rs:136-142 | `lib.rs` becomes its old contents followed by the fragment |
| Rhook.BuildDylib | src/lib.rs:145-161 | succeeds exactly when the build succeeds; otherwise fails with `failed to compile the dynamic library` |
| Rhook.Command.Env | src/lib.rs:105 | sets one variable of the child's environment and returns the same command |
| Rhook.Host.SetHooks | src/lib.rs:98-106 | the registry ends empty; the drain order lists every registered function once; `lib.rs` is the scaffold followed by the trampolines of the drained hooks in that order; on success the result is the same command with `LD_PRELOAD` set to `/tmp/rhookdyl/target/debug/librhookdyl.so`, otherwise the build error with the environment unchanged |
| Rhook.Trampoline | src/lib.rs:101 | no contract; `hook.function()`: the `libc!` generator of the hook's function applied to its closure |
| Rhook.Fragments | src/lib.rs:100-102 | no contract; the text the drain loop appends for a drain order: the hooks' trampolines concatenated in that order |
| Rhook.EnumerationSize | src/lib.rs:100-102 | a drain order has exactly as many entries as there are registered hooks |
| Rhook.TrampolineEmitted | src/lib.rs:100-102 | the trampoline of every hook in the drain order occurs in the appended text |
| Rhook.FragmentsSnoc | src/lib.rs:100-102 | draining one more hook extends the appended text by exactly its trampoline |
| Rhook.HookEmitted | src/lib.rs:100-102 | for a drain order of the registry, every registered hook's trampoline occurs in the appended text |
| Rhook.AppendedInOrder | src/lib.rs:101 | a file holding a prefix and the trampolines drained so far, extended by the next hook's trampoline, holds the prefix and the trampolines of the longer drain order |
| Rhook.Host.Drain | src/lib.rs:100-102 | the registry ends empty; the drain order lists every registered function once; `lib.rs` becomes its old contents followed by the trampolines of the drained hooks in that order |
| Rhook.DrainStep | src/lib.rs:100 | taking one more hook out of the set keeps the drain state: every function is still either pending or listed once |
| Rhook.DrainDone | src/lib.rs:100 | a drain with nothing pending has listed every registered function exactly once |

## Left out

- The `cargo new` and `cargo b` subprocesses, their `Stdio` piping and the file system (src/lib.rs:121-131, src/lib.rs:146-151) are not modelled as such. The two scratch files are fields of `Host`, and the build outcome is the `cargoSucceeds` parameter.
- The "project already exists" outcome of `cargo new` is ignored by the code, and the model ignores it too.
- Rhook.Host.Prepare, Rhook.Host.Append and Rhook.BuildDylib: I/O errors from spawning or waiting for `cargo new` and `cargo b` (the `spawn()?` and `wait()?` of src/lib.rs:150-151), and from writing or opening the files, are not modelled. With `?`, such an error would end `set_hooks` early with that error; the model's `prepare` and `append` always succeed, and its `BuildDylib` fails only with `failed to compile the dynamic library`, which stands for every way the build can fail.
- Rhook.Host.SetHooks: the order in which `HashSet::drain` yields the hooks depends on hashing and is not modelled. The method picks any remaining hook at each step and reports the order it used as a ghost output.
- The `Mutex` and `Lazy` around `HOOKS` are not modelled: the registry is one sequential state, and the lock only provides mutual exclusion.
- `src/hook.rs` is not part of this model. `Hook` is modelled as a target function plus closure text. `hook.function()` is taken to be the `libc!` generator of the target applied to the closure. The model thus follows the closure style the `libc!` template calls directly, a closure taking the function's arguments (as in tests/hooks.rs and examples/hooks.rs). Closures written `|| { … }` that take no arguments (examples/multi_hooks.rs:9-14, examples/multithread.rs:10, examples/dump_reads.rs:5) cannot be applied to the argument tuple, so `src/hook.rs` may wrap them; that wrapping is not modelled. The model assumes equality and hashing compare the target only, which is what makes the registry a map from function to closure.
- The runtime behaviour of generated code is not modelled: `dlsym`, `transmute`, library loading through `LD_PRELOAD`, and the override's effects in the child. The generated text simply returns the closure's result. A "`None` falls through to the original" behaviour does not appear in the generator code, and it is not modelled.
- `src/scaffold.rs` is a constant string. Its thread-local `COUNTER` matters only to closures at run time.
- Exact `stringify!` spacing is not modelled. The signature, argument tuple and pointer type are rendered as the catalogue's texts with each list item followed by a comma, which is the shape of the macro's `$( … ,)*` repetitions. Token-level refinements such as `* const` against `*const` are not modelled. In the `src/libc.rs` skeletons the parameter and type lists are joined with `, `, and the punctuation written in the source, such as `recv`'s trailing comma, is kept.
- The examples and the integration test spawn real programs and are not modelled. The only exception is the registration sequence of `examples/multi_hooks.rs`.
