/** The `libc!` trampoline generator: for each catalogued C function, a pure
    function from the override closure's source text to the source text of an
    exported `extern "C"` function of the same name and signature, which looks
    up the original implementation with `dlsym(RTLD_NEXT, ...)`, binds it as
    `original_<name>`, and returns what the closure returns when called with
    the trampoline's arguments. */
module LibCfn {
  import opened Text

  /** One parameter of a C function: its name and its Rust type, as text. */
  datatype Param = Param(name: string, ty: string)

  /** A C function's signature: name, parameters in declaration order, return type. */
  datatype Signature = Signature(name: string, params: seq<Param>, ret: string)

  /** The functions the macro is instantiated for. */
  datatype Fn = Open | Opendir | Recv | Read | RecvMsg

  const AllFns: seq<Fn> := [Open, Opendir, Recv, Read, RecvMsg]

  /** The signature catalogue: one `libc!(fn ...)` line per function. */
  function Sig(f: Fn): Signature
  {
    match f
    case Open => Signature("open", [Param("path", ConstChar), Param("oflag", CInt)], CInt)
    case Opendir => Signature("opendir", [Param("dirname", ConstChar)], DirPtr)
    case Recv => Signature("recv", [Param("socket", CInt), Param("buf", MutVoid),
                                    Param("len", SizeT), Param("flags", CInt)], SSizeT)
    case Read => Signature("read", [Param("fd", CInt), Param("buf", MutVoid),
                                    Param("count", SizeT)], SSizeT)
    case RecvMsg => Signature("recv_msg", [Param("fd", CInt), Param("msg", MsghdrPtr),
                                           Param("flags", CInt)], SSizeT)
  }

  /** The Rust type texts the catalogue uses. */
  const ConstChar := "*const c_char"
  const MutVoid := "*mut c_void"
  const MsghdrPtr := "*mut msghdr"
  const DirPtr := "*mut DIR"
  const CInt := "c_int"
  const SizeT := "size_t"
  const SSizeT := "ssize_t"

  /** A name or type text that holds no comma and no brace. */
  predicate Plain(t: string)
  {
    ',' !in t && Braceless(t)
  }

  /** The texts of a signature contain no comma inside an item and no brace,
      so its lists can be read back and its braces are the template's own. */
  predicate WellFormed(sig: Signature)
  {
    Braceless(sig.name) && Braceless(sig.ret) &&
    forall i :: 0 <= i < |sig.params| ==> Plain(sig.params[i].name) && Plain(sig.params[i].ty)
  }

  function Decls(ps: seq<Param>): seq<string>
  {
    seq(|ps|, i requires 0 <= i < |ps| => ps[i].name + ": " + ps[i].ty)
  }

  function Types(ps: seq<Param>): seq<string>
  {
    seq(|ps|, i requires 0 <= i < |ps| => ps[i].ty)
  }

  function Names(ps: seq<Param>): seq<string>
  {
    seq(|ps|, i requires 0 <= i < |ps| => ps[i].name)
  }

  /** The attribute and qualifiers of the exported signature. */
  const ExportPrefix := NoMangle + ExternFn
  const NoMangle := "#[no_mangle] "
  const ExternFn := "pub unsafe extern \"C\" fn "
  const PointerPrefix := "extern \"C\" fn("
  const Indent := "            "

  /** `function_type`: the exported signature, each parameter followed by a comma. */
  function FunctionType(sig: Signature): string
  {
    ExportPrefix + sig.name + "(" + Terminated(Decls(sig.params)) + ") -> " + sig.ret
  }

  /** `function_type_without_vars`: the matching function-pointer type. */
  function FunctionTypeWithoutVars(sig: Signature): string
  {
    PointerPrefix + Terminated(Types(sig.params)) + ") -> " + sig.ret
  }

  /** `function_vars`: the argument list passed to the closure. */
  function FunctionVars(sig: Signature): string
  {
    "(" + Terminated(Names(sig.params)) + ")"
  }

  /** The `format!` of the macro, line by line, with the closure text `fun`
      as `user_closure`. */
  function Generate(sig: Signature, fun: string): string
  {
    HeadLines(sig) + ResolveLine(sig.name) + RebindLine(sig) + CallLine(sig, fun) + TailLines
  }

  /** The generator the macro defines for `f`, e.g. `libcfn::read(fun)`. */
  function Generator(f: Fn, fun: string): string
  {
    Generate(Sig(f), fun)
  }

  /** The signature, then the line holding the body's opening brace. */
  function HeadLines(sig: Signature): string
  {
    FunctionType(sig) + BodyOpen
  }

  const BodyOpen := "\n" + Indent + "{\n"

  function ResolveLine(name: string): string
  {
    Indent + DlsymLookup(name) + ".as_ptr() as _);\n"
  }

  function RebindLine(sig: Signature): string
  {
    Indent + Rebinding(sig) + ";\n"
  }

  function CallLine(sig: Signature, fun: string): string
  {
    Indent + "(" + fun + ")" + FunctionVars(sig) + " \n"
  }

  /** The line holding the body's closing brace, then the format string's
      trailing indentation. */
  const TailLines := Indent + "}\n" + Indent

  /** Binding `original_<name>` to the address `dlsym` finds for the name
      followed by the NUL character of the format string, searching the
      libraries loaded after this one. */
  function DlsymLookup(name: string): string
  {
    "let original_" + name + " = dlsym(RTLD_NEXT, \"" + name + "\0\""
  }

  /** Rebinding `original_<name>` to the function-pointer type. */
  function Rebinding(sig: Signature): string
  {
    "let original_" + sig.name + ": " + FunctionTypeWithoutVars(sig) + " = transmute(original_" + sig.name + ")"
  }

  /** Everything the generated text holds before the closure. */
  function ClosurePrefix(sig: Signature): string
  {
    HeadLines(sig) + ResolveLine(sig.name) + RebindLine(sig) + Indent + "("
  }

  /** Everything the generated text holds after the closure. */
  function ClosureSuffix(sig: Signature): string
  {
    ")" + FunctionVars(sig) + " \n" + TailLines
  }

  /** The closure text of a generated trampoline, read back. */
  function Extract(sig: Signature, text: string): Option<string>
  {
    Unsplice(ClosurePrefix(sig), ClosureSuffix(sig), text)
  }

  /** The parameter list of an exported signature text, read back. */
  function ReadDeclaredParams(header: string, name: string, ret: string): Option<seq<string>>
  {
    match Unsplice(ExportPrefix + name + "(", ") -> " + ret, header)
    case Some(list) => Some(Split(list))
    case None => None
  }

  /** The parameter types of a function-pointer type text, read back. */
  function ReadPointerParams(ty: string, ret: string): Option<seq<string>>
  {
    match Unsplice(PointerPrefix, ") -> " + ret, ty)
    case Some(list) => Some(Split(list))
    case None => None
  }

  /** The arguments of a parenthesised argument list, read back. */
  function ReadCallArgs(vars: string): Option<seq<string>>
  {
    match Unsplice("(", ")", vars)
    case Some(list) => Some(Split(list))
    case None => None
  }

  /** The generated text is a prefix fixed by the signature, the closure
      verbatim, and a suffix fixed by the signature. */
  lemma GenerateSplice(sig: Signature, fun: string)
    ensures Generate(sig, fun) == ClosurePrefix(sig) + fun + ClosureSuffix(sig)
  {
    SpliceRegrouped(HeadLines(sig), ResolveLine(sig.name), RebindLine(sig), Indent, fun, FunctionVars(sig), TailLines);
  }

  lemma SpliceRegrouped(h: string, r: string, b: string, i: string, fun: string, vars: string, t: string)
    ensures h + r + b + (i + "(" + fun + ")" + vars + " \n") + t == (h + r + b + i + "(") + fun + (")" + vars + " \n" + t)
  {
  }

  lemma HeadFirst(sig: Signature, fun: string)
    ensures InfixAt(HeadLines(sig), Generate(sig, fun), 0)
  {
    PrefixOfChain(HeadLines(sig), ResolveLine(sig.name), RebindLine(sig), CallLine(sig, fun), TailLines);
  }

  lemma NameFirst(sig: Signature)
    ensures InfixAt(ExportPrefix + sig.name + "(", FunctionType(sig), 0)
  {
    var first := ExportPrefix + sig.name + "(";
    var decl := Terminated(Decls(sig.params)) + ") -> " + sig.ret;
    assert FunctionType(sig) == first + decl;
    PrefixOfConcat(first, decl);
  }

  /** The text starts with the exported signature of `sig.name`, and the
      first thing after the signature is the opening brace of its body. */
  lemma SignatureFirst(sig: Signature, fun: string)
    ensures InfixAt(ExportPrefix + sig.name + "(", Generate(sig, fun), 0)
    ensures InfixAt(FunctionType(sig), Generate(sig, fun), 0)
    ensures Generate(sig, fun)[|FunctionType(sig)| + 1 + |Indent|] == '{'
  {
    HeadFirst(sig, fun);
    PrefixOfConcat(FunctionType(sig), BodyOpen);
    PrefixTransitive(FunctionType(sig), HeadLines(sig), Generate(sig, fun));
    NameFirst(sig);
    PrefixTransitive(ExportPrefix + sig.name + "(", FunctionType(sig), Generate(sig, fun));
    assert HeadLines(sig)[|FunctionType(sig)| + 1 + |Indent|] == '{';
  }

  /** The body looks the original up by its exact name followed by NUL. */
  lemma ResolvesOriginal(sig: Signature, fun: string)
    ensures IsInfix(DlsymLookup(sig.name), Generate(sig, fun))
  {
    ResolveLineLooksUp(sig.name);
    var after := RebindLine(sig) + CallLine(sig, fun) + TailLines;
    InfixWithin(DlsymLookup(sig.name), ResolveLine(sig.name), HeadLines(sig), after);
    assert Generate(sig, fun) == HeadLines(sig) + ResolveLine(sig.name) + after;
  }

  lemma ResolveLineLooksUp(name: string)
    ensures IsInfix(DlsymLookup(name), ResolveLine(name))
  {
    InfixOfConcat(Indent, DlsymLookup(name), ".as_ptr() as _);\n");
  }

  /** The body rebinds `original_<name>` to the pointer type built from the signature. */
  lemma RebindsOriginal(sig: Signature, fun: string)
    ensures IsInfix(Rebinding(sig), Generate(sig, fun))
  {
    RebindLineRebinds(sig);
    var before := HeadLines(sig) + ResolveLine(sig.name);
    var after := CallLine(sig, fun) + TailLines;
    InfixWithin(Rebinding(sig), RebindLine(sig), before, after);
    assert Generate(sig, fun) == before + RebindLine(sig) + after;
  }

  lemma RebindLineRebinds(sig: Signature)
    ensures IsInfix(Rebinding(sig), RebindLine(sig))
  {
    InfixOfConcat(Indent, Rebinding(sig), ";\n");
  }

  /** The closure appears verbatim in parentheses, immediately applied to the
      argument list. */
  lemma ClosureApplied(sig: Signature, fun: string)
    ensures IsInfix("(" + fun + ")" + FunctionVars(sig), Generate(sig, fun))
  {
    var call := "(" + fun + ")" + FunctionVars(sig);
    assert CallLine(sig, fun) == Indent + call + " \n";
    InfixOfConcat(Indent, call, " \n");
    var before := HeadLines(sig) + ResolveLine(sig.name) + RebindLine(sig);
    InfixWidened(call, CallLine(sig, fun), |Indent|, before, TailLines);
  }

  lemma {:induction false} TerminatedBraceless(xs: seq<string>)
    requires forall i :: 0 <= i < |xs| ==> Braceless(xs[i])
    ensures Braceless(Terminated(xs))
  {
    if xs != [] {
      TerminatedBraceless(xs[1..]);
      assert Braceless(",");
    }
  }

  lemma {:induction false} CommaFreeLists(sig: Signature)
    requires WellFormed(sig)
    ensures CommaFree(Decls(sig.params)) && CommaFree(Types(sig.params)) && CommaFree(Names(sig.params))
  {
    forall i | 0 <= i < |sig.params| ensures ',' !in Decls(sig.params)[i] {
      assert Decls(sig.params)[i] == sig.params[i].name + ": " + sig.params[i].ty;
    }
  }

  /** Reading the three lists back out of the generated pieces gives, for a
      well-formed signature, the declarations, the bare types and the bare
      names of its parameters in declaration order: the pointer type repeats
      the signature's types in order and the closure receives the arguments
      in declaration order. */
  lemma {:induction false} SignatureAgreement(sig: Signature)
    requires WellFormed(sig)
    ensures ReadDeclaredParams(FunctionType(sig), sig.name, sig.ret) == Some(Decls(sig.params))
    ensures ReadPointerParams(FunctionTypeWithoutVars(sig), sig.ret) == Some(Types(sig.params))
    ensures ReadCallArgs(FunctionVars(sig)) == Some(Names(sig.params))
    ensures forall i :: 0 <= i < |sig.params| ==>
      Decls(sig.params)[i] == Names(sig.params)[i] + ": " + Types(sig.params)[i]
  {
    CommaFreeLists(sig);
    assert FunctionType(sig) == (ExportPrefix + sig.name + "(") + Terminated(Decls(sig.params)) + (") -> " + sig.ret);
    assert FunctionTypeWithoutVars(sig) == PointerPrefix + Terminated(Types(sig.params)) + (") -> " + sig.ret);
    UnspliceSplice(ExportPrefix + sig.name + "(", Terminated(Decls(sig.params)), ") -> " + sig.ret);
    SplitTerminated(Decls(sig.params));
    UnspliceSplice(PointerPrefix, Terminated(Types(sig.params)), ") -> " + sig.ret);
    SplitTerminated(Types(sig.params));
    UnspliceSplice("(", Terminated(Names(sig.params)), ")");
    SplitTerminated(Names(sig.params));
  }

  /** The closure is recovered from the generated text. */
  lemma RecoverClosure(sig: Signature, fun: string)
    ensures Extract(sig, Generate(sig, fun)) == Some(fun)
  {
    GenerateSplice(sig, fun);
    UnspliceSplice(ClosurePrefix(sig), fun, ClosureSuffix(sig));
  }

  /** Whatever `Extract` reads back regenerates exactly the text it read. */
  lemma ExtractSound(sig: Signature, text: string)
    requires Extract(sig, text).Some?
    ensures Generate(sig, Extract(sig, text).value) == text
  {
    GenerateSplice(sig, Extract(sig, text).value);
  }

  /** For a fixed signature, different closures give different trampolines. */
  lemma GenerateInjective(sig: Signature, f1: string, f2: string)
    requires Generate(sig, f1) == Generate(sig, f2)
    ensures f1 == f2
  {
    RecoverClosure(sig, f1);
    RecoverClosure(sig, f2);
  }

  // Brace balance. The argument runs in three steps: every literal piece of
  // the template holds no brace (one small lemma per literal, combined by
  // `PrefixPiecesBraceless`, `LookupPiecesBraceless` and `PunctuationBraceless`);
  // the generated lists of a well-formed signature hold none
  // (`ListsBraceless`); so the only braces besides the closure's are the
  // body's opening and closing ones (`BodyBraces`).

  /** The fixed pieces of the template hold no brace. */
  lemma PrefixPiecesBraceless()
    ensures Braceless(ExportPrefix) && Braceless(PointerPrefix) && Braceless(Indent)
  {
    ExportPrefixBraceless();
    PointerPrefixBraceless();
    IndentBraceless();
  }

  lemma ExportPrefixBraceless()
    ensures Braceless(ExportPrefix)
  {
    NoMangleBraceless();
    ExternFnBraceless();
  }

  lemma NoMangleBraceless()
    ensures Braceless(NoMangle)
  {
  }

  lemma ExternFnBraceless()
    ensures Braceless(ExternFn)
  {
  }

  lemma PointerPrefixBraceless()
    ensures Braceless(PointerPrefix)
  {
  }

  lemma PunctuationBraceless()
    ensures Braceless("(") && Braceless(")") && Braceless(") -> ") && Braceless(": ")
    ensures Braceless(";\n") && Braceless(" \n") && Braceless("\n")
  {
  }

  lemma LookupPiecesBraceless()
    ensures Braceless("let original_") && Braceless(" = dlsym(RTLD_NEXT, \"") && Braceless("\0\"")
    ensures Braceless(".as_ptr() as _);\n") && Braceless(" = transmute(original_")
  {
    BindingBraceless();
    DlsymBraceless();
    CastBraceless();
    TransmuteBraceless();
  }

  lemma BindingBraceless()
    ensures Braceless("let original_") && Braceless("\0\"")
  {
  }

  lemma DlsymBraceless()
    ensures Braceless(" = dlsym(RTLD_NEXT, \"")
  {
  }

  lemma CastBraceless()
    ensures Braceless(".as_ptr() as _);\n")
  {
  }

  lemma TransmuteBraceless()
    ensures Braceless(" = transmute(original_")
  {
  }

  lemma DeclsBraceless(sig: Signature)
    requires WellFormed(sig)
    ensures Braceless(Terminated(Decls(sig.params)))
  {
    PunctuationBraceless();
    forall i | 0 <= i < |sig.params| ensures Braceless(Decls(sig.params)[i]) {
      assert Decls(sig.params)[i] == sig.params[i].name + ": " + sig.params[i].ty;
    }
    TerminatedBraceless(Decls(sig.params));
  }

  /** The three texts built from a well-formed signature hold no brace. */
  lemma ListsBraceless(sig: Signature)
    requires WellFormed(sig)
    ensures Braceless(FunctionType(sig)) && Braceless(FunctionTypeWithoutVars(sig)) && Braceless(FunctionVars(sig))
  {
    DeclsBraceless(sig);
    TerminatedBraceless(Types(sig.params));
    TerminatedBraceless(Names(sig.params));
    PrefixPiecesBraceless();
    PunctuationBraceless();
  }

  lemma CountOfThree(c: char, x: string, y: string, z: string)
    ensures Count(c, x + y + z) == Count(c, x) + Count(c, y) + Count(c, z)
  {
    CountConcat(c, x, y);
    CountConcat(c, x + y, z);
  }

  lemma BodyOpenBraces()
    ensures Count('{', BodyOpen) == 1 && Count('}', BodyOpen) == 0
  {
    IndentBraceless();
    BracelessCount("\n" + Indent);
    OpenLineCount();
    CountConcat('{', "\n" + Indent, "{\n");
    CountConcat('}', "\n" + Indent, "{\n");
  }

  lemma OpenLineCount()
    ensures Count('{', "{\n") == 1 && Count('}', "{\n") == 0
  {
  }

  lemma TailBraces()
    ensures Count('{', TailLines) == 0 && Count('}', TailLines) == 1
  {
    IndentBraceless();
    BracelessCount(Indent);
    CloseLineCount();
    CountOfThree('{', Indent, "}\n", Indent);
    CountOfThree('}', Indent, "}\n", Indent);
  }

  lemma CloseLineCount()
    ensures Count('{', "}\n") == 0 && Count('}', "}\n") == 1
  {
  }

  lemma IndentBraceless()
    ensures Braceless(Indent) && Braceless("\n" + Indent)
  {
  }

  lemma ResolveLineBraceless(name: string)
    requires Braceless(name)
    ensures Braceless(ResolveLine(name))
  {
    LookupPiecesBraceless();
    PrefixPiecesBraceless();
  }

  lemma RebindLineBraceless(sig: Signature)
    requires WellFormed(sig)
    ensures Braceless(RebindLine(sig))
  {
    ListsBraceless(sig);
    LookupPiecesBraceless();
    PrefixPiecesBraceless();
    PunctuationBraceless();
  }

  /** The lines between the opening brace and the closure hold no brace. */
  lemma LinesBraceless(sig: Signature)
    requires WellFormed(sig)
    ensures Braceless(ResolveLine(sig.name) + RebindLine(sig) + Indent + "(")
  {
    ResolveLineBraceless(sig.name);
    RebindLineBraceless(sig);
    PrefixPiecesBraceless();
    PunctuationBraceless();
  }

  /** The signature and the line after it hold exactly the body's opening brace. */
  lemma HeadBraces(sig: Signature)
    requires WellFormed(sig)
    ensures Count('{', HeadLines(sig)) == 1 && Count('}', HeadLines(sig)) == 0
  {
    ListsBraceless(sig);
    BracelessCount(FunctionType(sig));
    BodyOpenBraces();
    CountConcat('{', FunctionType(sig), BodyOpen);
    CountConcat('}', FunctionType(sig), BodyOpen);
  }

  /** The part before the closure holds the body's opening brace and no other brace. */
  lemma PrefixBraces(sig: Signature)
    requires WellFormed(sig)
    ensures Count('{', ClosurePrefix(sig)) == 1 && Count('}', ClosurePrefix(sig)) == 0
  {
    var lines := ResolveLine(sig.name) + RebindLine(sig) + Indent + "(";
    LinesBraceless(sig);
    BracelessCount(lines);
    HeadBraces(sig);
    Regrouped(HeadLines(sig), ResolveLine(sig.name), RebindLine(sig), Indent, "(");
    CountConcat('{', HeadLines(sig), lines);
    CountConcat('}', HeadLines(sig), lines);
  }

  /** The part after the closure holds the body's closing brace and no other brace. */
  lemma SuffixBraces(sig: Signature)
    requires WellFormed(sig)
    ensures Count('{', ClosureSuffix(sig)) == 0 && Count('}', ClosureSuffix(sig)) == 1
  {
    var x := ")" + FunctionVars(sig) + " \n";
    ListsBraceless(sig);
    PunctuationBraceless();
    BracelessCount(x);
    TailBraces();
    CountConcat('{', x, TailLines);
    CountConcat('}', x, TailLines);
  }

  /** The template adds exactly one opening and one closing brace around the
      closure, and the text ends with that closing brace followed by the
      trailing whitespace of the format string. */
  lemma BodyBraces(sig: Signature, fun: string)
    requires WellFormed(sig)
    ensures Count('{', Generate(sig, fun)) == Count('{', fun) + 1
    ensures Count('}', Generate(sig, fun)) == Count('}', fun) + 1
    ensures InfixAt("}\n" + Indent, Generate(sig, fun), |Generate(sig, fun)| - |"}\n" + Indent|)
  {
    GenerateSplice(sig, fun);
    CountOfThree('{', ClosurePrefix(sig), fun, ClosureSuffix(sig));
    CountOfThree('}', ClosurePrefix(sig), fun, ClosureSuffix(sig));
    PrefixBraces(sig);
    SuffixBraces(sig);
    EndsWithClosingBrace(sig, fun);
  }

  lemma EndsWithClosingBrace(sig: Signature, fun: string)
    ensures InfixAt("}\n" + Indent, Generate(sig, fun), |Generate(sig, fun)| - |"}\n" + Indent|)
  {
    var close := "}\n" + Indent;
    var before := HeadLines(sig) + ResolveLine(sig.name) + RebindLine(sig) + CallLine(sig, fun) + Indent;
    assert Generate(sig, fun) == before + close + [];
    InfixOfConcat(before, close, []);
  }

  /** The catalogue: exactly five generators, with distinct names and the
      parameter counts of their C signatures. */
  lemma Catalogue()
    ensures |AllFns| == 5 && Distinct(AllFns) && forall f :: f in AllFns
    ensures Sig(Open).name == "open" && |Sig(Open).params| == 2
    ensures Sig(Opendir).name == "opendir" && |Sig(Opendir).params| == 1
    ensures Sig(Recv).name == "recv" && |Sig(Recv).params| == 4
    ensures Sig(Read).name == "read" && |Sig(Read).params| == 3
    ensures Sig(RecvMsg).name == "recv_msg" && |Sig(RecvMsg).params| == 3
    ensures forall f, g :: Sig(f).name == Sig(g).name ==> f == g
  {
    forall f ensures f in AllFns {
      match f
      case Open => assert AllFns[0] == f;
      case Opendir => assert AllFns[1] == f;
      case Recv => assert AllFns[2] == f;
      case Read => assert AllFns[3] == f;
      case RecvMsg => assert AllFns[4] == f;
    }
  }

  /** Every catalogued signature is well formed, so the lemmas above that
      require it hold for every generator. */
  lemma CatalogueWellFormed(f: Fn)
    ensures WellFormed(Sig(f))
  {
    match f
    case Open => OpenWellFormed();
    case Opendir => OpendirWellFormed();
    case Recv => RecvWellFormed();
    case Read => ReadWellFormed();
    case RecvMsg => RecvMsgWellFormed();
  }

  lemma OpenWellFormed()
    ensures WellFormed(Sig(Open))
  {
    ConstCharPlain();
    ScalarTypesPlain();
    assert Plain("open") && Plain("path") && Plain("oflag");
  }

  lemma OpendirWellFormed()
    ensures WellFormed(Sig(Opendir))
  {
    ConstCharPlain();
    MutPointersPlain();
    assert Plain("opendir") && Plain("dirname");
  }

  lemma RecvWellFormed()
    ensures WellFormed(Sig(Recv))
  {
    MutPointersPlain();
    ScalarTypesPlain();
    assert Plain("recv") && Plain("socket") && Plain("buf") && Plain("len") && Plain("flags");
  }

  lemma ReadWellFormed()
    ensures WellFormed(Sig(Read))
  {
    MutPointersPlain();
    ScalarTypesPlain();
    assert Plain("read") && Plain("fd") && Plain("buf") && Plain("count");
  }

  lemma RecvMsgWellFormed()
    ensures WellFormed(Sig(RecvMsg))
  {
    MutPointersPlain();
    ScalarTypesPlain();
    assert Plain("recv_msg") && Plain("fd") && Plain("msg") && Plain("flags");
  }

  lemma ConstCharPlain()
    ensures Plain(ConstChar)
  {
  }

  lemma MutPointersPlain()
    ensures Plain(MutVoid) && Plain(MsghdrPtr) && Plain(DirPtr)
  {
  }

  lemma ScalarTypesPlain()
    ensures Plain(CInt) && Plain(SizeT) && Plain(SSizeT)
  {
  }
}
