/** The older, hand-written trampoline generators. Each one takes the text of
    a stringified trampoline skeleton whose body ends in a closing brace,
    removes that last character in place (`String::pop`), and appends
    `(<closure>)(<arguments>)}`: the closure call goes inside the body, just
    before the brace it put back. The crate does not compile this file; the
    current generators are in the `LibCfn` module. */
module LibC {
  import opened Text
  import LibCfn

  /** A Rust `String`, mutated in place. */
  class RustString {
    var chars: string

    constructor (s: string)
      ensures chars == s
    {
      chars := s;
    }

    /** `String::pop`: removes and returns the last character; on the empty
        string it returns `None` and changes nothing. */
    method Pop() returns (c: Option<char>)
      modifies this
      ensures old(chars) == [] ==> c == None && chars == []
      ensures old(chars) != [] ==>
        c == Some(old(chars)[|old(chars)| - 1]) && chars == old(chars)[..|old(chars)| - 1]
    {
      if chars == [] {
        c := None;
      } else {
        c := Some(chars[|chars| - 1]);
        chars := chars[..|chars| - 1];
      }
    }
  }

  /** The string that `remove_last_char` returns: `s` without its last
      character, or `s` itself when it is empty. */
  function WithoutLastChar(s: string): (r: string)
    ensures s == [] ==> r == []
    ensures s != [] ==> r + [s[|s| - 1]] == s
  {
    if s == [] then [] else s[..|s| - 1]
  }

  /** `StringTools::remove_last_char`: copy the text into a `String` and pop it. */
  method RemoveLastChar(s: string) returns (r: string)
    ensures s == [] ==> r == []
    ensures s != [] ==> |r| == |s| - 1 && r == s[..|s| - 1]
    ensures r == WithoutLastChar(s)
  {
    var buffer := new RustString(s);
    var _ := buffer.Pop();
    r := buffer.chars;
  }

  /** The four hand-written generators. */
  datatype LegacyFn = Open | Opendir | Recv | Read

  /** The C function each generator overrides, whose signature its skeleton spells out. */
  function Target(g: LegacyFn): LibCfn.Fn
  {
    match g
    case Open => LibCfn.Open
    case Opendir => LibCfn.Opendir
    case Recv => LibCfn.Recv
    case Read => LibCfn.Read
  }

  /** The stringified skeleton: the exported signature and a body that looks
      up and rebinds `original_<name>`, ending in the closing brace. Unlike the
      `LibCfn` template, the name's terminator stays the two-character escape
      `\0` inside a string literal, as `stringify!` keeps tokens as written.
      For the same reason a comma written after the last parameter, as in
      `recv`'s multi-line signature, is kept (`trailingComma`). */
  function Skeleton(sig: LibCfn.Signature, trailingComma: bool): string
  {
    LibCfn.ExportPrefix + sig.name + "(" + Joined(LibCfn.Decls(sig.params), ", ")
    + (if trailingComma then "," else "") + ") -> " + sig.ret
    + " { let RTLD_NEXT: CPtr = -1i64 as CPtr; "
    + "let original_" + sig.name + " = dlsym(RTLD_NEXT, \"" + sig.name + "\\0\".as_ptr()); "
    + "let original_" + sig.name + ": " + LibCfn.PointerPrefix + Joined(LibCfn.Types(sig.params), ", ")
    + ") -> " + sig.ret + " = transmute(original_" + sig.name + "); }"
  }

  /** The skeleton each generator stringifies; only `recv` ends its parameter
      list with a comma. */
  function Template(g: LegacyFn): string
  {
    Skeleton(LibCfn.Sig(Target(g)), g == Recv)
  }

  /** The argument list each generator's `format!` writes after the closure. */
  function CallArgs(g: LegacyFn): string
  {
    match g
    case Open => "(path, oflag)"
    case Opendir => "(dirname)"
    case Recv => "(socket, buf, len, flags)"
    case Read => "(fd,buf,count)"
  }

  /** The generator `libc::open`, `libc::opendir`, `libc::recv` or
      `libc::read` applied to the closure text `fun`: the template without its
      last character, then `format!("({})<arguments>}}", fun)`. */
  function Generate(g: LegacyFn, fun: string): string
  {
    WithoutLastChar(Template(g)) + "(" + fun + ")" + CallArgs(g) + "}"
  }

  /** The skeleton with its closing brace removed: what precedes the closure. */
  function Body(g: LegacyFn): string
  {
    WithoutLastChar(Template(g))
  }

  /** The closure text of a generated trampoline, read back. */
  function Extract(g: LegacyFn, text: string): Option<string>
  {
    Unsplice(Body(g) + "(", ")" + CallArgs(g) + "}", text)
  }

  /** The skeleton ends with the closing brace of the function body. */
  lemma SkeletonClosed(sig: LibCfn.Signature, trailingComma: bool)
    ensures Skeleton(sig, trailingComma) != [] && Skeleton(sig, trailingComma)[|Skeleton(sig, trailingComma)| - 1] == '}'
  {
  }

  /** Every generator is the skeleton with the closure call inserted just
      before the body's closing brace, and the brace put back at the end. */
  lemma SplicedBeforeClosingBrace(g: LegacyFn, fun: string)
    ensures Template(g) == Body(g) + "}"
    ensures Generate(g, fun) == Body(g) + "(" + fun + ")" + CallArgs(g) + "}"
  {
    SkeletonSplit(LibCfn.Sig(Target(g)), g == Recv);
  }

  lemma SkeletonSplit(sig: LibCfn.Signature, trailingComma: bool)
    ensures Skeleton(sig, trailingComma) == WithoutLastChar(Skeleton(sig, trailingComma)) + "}"
  {
    SkeletonClosed(sig, trailingComma);
    ClosedText(Skeleton(sig, trailingComma));
  }

  lemma ClosedText(t: string)
    requires t != [] && t[|t| - 1] == '}'
    ensures t == WithoutLastChar(t) + "}"
  {
  }

  lemma CallRegrouped(body: string, fun: string, args: string)
    ensures body + "(" + fun + ")" + args + "}" == (body + "(") + fun + (")" + args + "}")
  {
  }

  /** The closure appears verbatim, and the text ends with a closing brace. */
  lemma ClosureVerbatim(g: LegacyFn, fun: string)
    ensures IsInfix(fun, Generate(g, fun))
    ensures Generate(g, fun)[|Generate(g, fun)| - 1] == '}'
  {
    CallVerbatim(Body(g), fun, CallArgs(g));
  }

  lemma CallVerbatim(body: string, fun: string, args: string)
    ensures IsInfix(fun, body + "(" + fun + ")" + args + "}")
    ensures (body + "(" + fun + ")" + args + "}")[|body + "(" + fun + ")" + args + "}"| - 1] == '}'
  {
    CallRegrouped(body, fun, args);
    InfixOfConcat(body + "(", fun, ")" + args + "}");
  }

  /** The closure is recovered from the generated text. */
  lemma RecoverClosure(g: LegacyFn, fun: string)
    ensures Extract(g, Generate(g, fun)) == Some(fun)
  {
    CallRegrouped(Body(g), fun, CallArgs(g));
    UnspliceSplice(Body(g) + "(", fun, ")" + CallArgs(g) + "}");
  }

  /** Whatever `Extract` reads back regenerates exactly the text it read. */
  lemma ExtractSound(g: LegacyFn, text: string)
    requires Extract(g, text).Some?
    ensures Generate(g, Extract(g, text).value) == text
  {
    CallRegrouped(Body(g), Extract(g, text).value, CallArgs(g));
  }

  /** For a fixed generator, different closures give different trampolines. */
  lemma GenerateInjective(g: LegacyFn, f1: string, f2: string)
    requires Generate(g, f1) == Generate(g, f2)
    ensures f1 == f2
  {
    RecoverClosure(g, f1);
    RecoverClosure(g, f2);
  }

  /** The hand-written argument list names the skeleton's parameters in
      declaration order: `path, oflag` for `open`; one argument, `dirname`,
      for `opendir`; `socket, buf, len, flags` for `recv`; `fd, buf, count`
      (written without spaces) for `read`. */
  lemma ArgumentsInDeclaredOrder(g: LegacyFn)
    ensures |CallArgs(g)| >= 2
    ensures SplitSeparated(CallArgs(g)[1..|CallArgs(g)| - 1]) == LibCfn.Names(LibCfn.Sig(Target(g)).params)
  {
    match g {
      case Open => OpenArguments();
      case Opendir => OpendirArguments();
      case Recv => RecvArguments();
      case Read => ReadArguments();
    }
  }

  lemma OpenArguments()
    ensures |CallArgs(Open)| >= 2
    ensures SplitSeparated(CallArgs(Open)[1..|CallArgs(Open)| - 1]) == ["path", "oflag"]
    ensures LibCfn.Names(LibCfn.Sig(LibCfn.Open).params) == ["path", "oflag"]
  {
    ArgumentsOf(Open, ["path", "oflag"], ", ");
  }

  lemma OpendirArguments()
    ensures |CallArgs(Opendir)| >= 2
    ensures SplitSeparated(CallArgs(Opendir)[1..|CallArgs(Opendir)| - 1]) == ["dirname"]
    ensures LibCfn.Names(LibCfn.Sig(LibCfn.Opendir).params) == ["dirname"]
  {
    ArgumentsOf(Opendir, ["dirname"], ", ");
  }

  lemma RecvArguments()
    ensures |CallArgs(Recv)| >= 2
    ensures SplitSeparated(CallArgs(Recv)[1..|CallArgs(Recv)| - 1]) == ["socket", "buf", "len", "flags"]
    ensures LibCfn.Names(LibCfn.Sig(LibCfn.Recv).params) == ["socket", "buf", "len", "flags"]
  {
    RecvCallText();
    RecvItemsPlain();
    ArgumentsOf(Recv, ["socket", "buf", "len", "flags"], ", ");
  }

  lemma RecvItemsPlain()
    ensures PlainItems(["socket", "buf", "len", "flags"])
  {
  }

  lemma RecvCallText()
    ensures CallArgs(Recv) == "(" + Joined(["socket", "buf", "len", "flags"], ", ") + ")"
  {
    RecvNamesJoined();
    assert CallArgs(Recv) == "(" + "socket, buf, len, flags" + ")";
  }

  lemma RecvNamesJoined()
    ensures Joined(["socket", "buf", "len", "flags"], ", ") == "socket, buf, len, flags"
  {
  }

  lemma ReadArguments()
    ensures |CallArgs(Read)| >= 2
    ensures SplitSeparated(CallArgs(Read)[1..|CallArgs(Read)| - 1]) == ["fd", "buf", "count"]
    ensures LibCfn.Names(LibCfn.Sig(LibCfn.Read).params) == ["fd", "buf", "count"]
  {
    ArgumentsOf(Read, ["fd", "buf", "count"], ",");
  }

  lemma ArgumentsOf(g: LegacyFn, names: seq<string>, sep: string)
    requires PlainItems(names) && (sep == "," || sep == ", ")
    requires CallArgs(g) == "(" + Joined(names, sep) + ")"
    requires LibCfn.Names(LibCfn.Sig(Target(g)).params) == names
    ensures |CallArgs(g)| >= 2
    ensures SplitSeparated(CallArgs(g)[1..|CallArgs(g)| - 1]) == LibCfn.Names(LibCfn.Sig(Target(g)).params)
  {
    var args := CallArgs(g);
    assert args[1..|args| - 1] == Joined(names, sep);
    SplitJoined(names, sep);
  }
}
