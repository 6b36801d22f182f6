/**
 Path rewriting of whole tool calls. It is applied twice on purpose: by the tool's wrapped
 coroutine and again by the chain of per-server interceptors.
 */
module ToolArguments {
  import opened Wrappers
  import opened PathNormalizer

  const PATH_ARG_KEYS := {"path", "source", "destination", "from_path", "to_path", "old_path", "new_path"}

  /** An argument value: text, a list, or anything the rewriting does not look into. */
  datatype Arg = Str(text: string) | Items(items: seq<Arg>) | Other(value: int)

  type Args = map<string, Arg>

  /** The directories of one server. */
  datatype Roots = Roots(sandbox: Path, project: Path)

  function FixText(a: Arg, r: Roots): Arg {
    if a.Str? then Str(Normalize(a.text, r.sandbox, r.project)) else a
  }

  function FixItems(items: seq<Arg>, r: Roots): (fixed: seq<Arg>)
    ensures |fixed| == |items|
    ensures forall i :: 0 <= i < |items| ==> fixed[i] == FixText(items[i], r)
  {
    seq(|items|, i requires 0 <= i < |items| => FixText(items[i], r))
  }

  function FixValue(key: string, a: Arg, r: Roots): Arg {
    if a.Str? && key in PATH_ARG_KEYS then FixText(a, r)
    else if key == "paths" && a.Items? then Items(FixItems(a.items, r))
    else a
  }

  function Fixed(args: Args, r: Roots): Args {
    map key | key in args :: FixValue(key, args[key], r)
  }

  /** The first items of a list, fixed. */
  ghost predicate FixedSoFar(items: seq<Arg>, fixed: seq<Arg>, r: Roots) {
    |fixed| <= |items| && forall k :: 0 <= k < |fixed| ==> fixed[k] == FixText(items[k], r)
  }

  lemma FixNext(items: seq<Arg>, fixed: seq<Arg>, r: Roots, next: Arg)
    requires FixedSoFar(items, fixed, r) && |fixed| < |items| && next == FixText(items[|fixed|], r)
    ensures FixedSoFar(items, fixed + [next], r)
    ensures fixed + [next] == items[..|fixed| + 1] <==> fixed == items[..|fixed|] && next == items[|fixed|]
  {
    assert items[..|fixed| + 1] == items[..|fixed|] + [items[|fixed|]];
    assert fixed + [next] == items[..|fixed| + 1] ==>
      fixed == (fixed + [next])[..|fixed|] && items[..|fixed| + 1][..|fixed|] == items[..|fixed|];
  }

  lemma AllFixed(items: seq<Arg>, fixed: seq<Arg>, r: Roots)
    requires FixedSoFar(items, fixed, r) && |fixed| == |items|
    ensures fixed == FixItems(items, r)
  {
  }

  /** The list case: the original list is returned when no item changed. */
  method FixList(items: seq<Arg>, r: Roots) returns (result: seq<Arg>)
    ensures result == FixItems(items, r)
  {
    var fixed: seq<Arg> := [];
    var changed := false;
    for i := 0 to |items|
      invariant |fixed| == i && FixedSoFar(items, fixed, r)
      invariant !changed ==> fixed == items[..i]
    {
      var item := items[i];
      FixNext(items, fixed, r, FixText(item, r));
      if item.Str? {
        var nv := Normalize(item.text, r.sandbox, r.project);
        fixed := fixed + [Str(nv)];
        changed := changed || nv != item.text;
      } else {
        fixed := fixed + [item];
      }
    }
    AllFixed(items, fixed, r);
    result := if changed then fixed else items;
  }

  method NormalizeToolArgs(args: Args, r: Roots) returns (out: Args)
    ensures out == Fixed(args, r)
  {
    out := args;
    var todo := args.Keys;
    while todo != {}
      invariant todo <= args.Keys == out.Keys
      invariant forall key :: key in args ==>
        out[key] == if key in todo then args[key] else FixValue(key, args[key], r)
      decreases |todo|
    {
      var key :| key in todo;
      var value := out[key];
      if value.Str? && key in PATH_ARG_KEYS {
        out := out[key := FixText(value, r)];
      } else if key == "paths" && value.Items? {
        var fixed := FixList(value.items, r);
        out := out[key := Items(fixed)];
      }
      todo := todo - {key};
    }
  }

  // ---- Servers, interceptors and the wrapper --------------------------------------------------------

  datatype Spec = Spec(name: string, stdio: bool, args: seq<string>)

  datatype Interceptor = Interceptor(server: string, roots: Roots)

  function RootsOf(spec: Spec, cwd: Path): Roots
    requires spec.args != []
  {
    var (sandbox, project) := StdioRoots(spec.args, cwd).value;
    Roots(sandbox, project)
  }

  predicate Sandboxed(spec: Spec) {
    spec.stdio && spec.args != []
  }

  /** `get_stdio_sandbox_pair`: the first configured match. */
  function SandboxPair(specs: seq<Spec>, server: string, cwd: Path): Option<Roots> {
    if specs == [] then None
    else if Sandboxed(specs[0]) && specs[0].name == server then Some(RootsOf(specs[0], cwd))
    else SandboxPair(specs[1..], server, cwd)
  }

  /** `build_stdio_filesystem_interceptors`. */
  function Interceptors(specs: seq<Spec>, cwd: Path): seq<Interceptor> {
    if specs == [] then []
    else
      (if Sandboxed(specs[0]) then [Interceptor(specs[0].name, RootsOf(specs[0], cwd))] else [])
      + Interceptors(specs[1..], cwd)
  }

  /** What the innermost handler receives after every interceptor of the chain. */
  function Chain(chain: seq<Interceptor>, server: string, args: Args): Args {
    if chain == [] then args
    else
      var i := chain[0];
      var next := if i.server != server then args else Fixed(args, i.roots);
      Chain(chain[1..], server, next)
  }

  /** What the wrapped coroutine passes on. */
  function Wrapped(specs: seq<Spec>, server: string, args: Args, cwd: Path): Args {
    match SandboxPair(specs, server, cwd)
    case Some(r) => Fixed(args, r)
    case None => args
  }

  /** `build_connections` refuses a configuration in which two servers share a name. */
  ghost predicate UniqueNames(specs: seq<Spec>) {
    forall i, j :: 0 <= i < j < |specs| ==> specs[i].name != specs[j].name
  }

  lemma {:induction false} OtherServersOnly(specs: seq<Spec>, server: string, args: Args, cwd: Path)
    requires forall i :: 0 <= i < |specs| ==> specs[i].name != server
    ensures Chain(Interceptors(specs, cwd), server, args) == args
    ensures SandboxPair(specs, server, cwd) == None
  {
    if specs != [] {
      OtherServersOnly(specs[1..], server, args, cwd);
      if Sandboxed(specs[0]) {
        var first := Interceptor(specs[0].name, RootsOf(specs[0], cwd));
        assert ([first] + Interceptors(specs[1..], cwd))[1..] == Interceptors(specs[1..], cwd);
      } else {
        assert Interceptors(specs, cwd) == Interceptors(specs[1..], cwd);
      }
    }
  }

  /** Of the whole chain only the server's own interceptor acts. */
  lemma {:induction false} ChainIsOwnInterceptor(specs: seq<Spec>, server: string, args: Args, cwd: Path)
    requires UniqueNames(specs)
    ensures Chain(Interceptors(specs, cwd), server, args) == Wrapped(specs, server, args, cwd)
  {
    if specs != [] {
      var rest := Interceptors(specs[1..], cwd);
      if Sandboxed(specs[0]) {
        var first := Interceptor(specs[0].name, RootsOf(specs[0], cwd));
        assert ([first] + rest)[1..] == rest;
        if specs[0].name == server {
          OtherServersOnly(specs[1..], server, Fixed(args, first.roots), cwd);
        } else {
          ChainIsOwnInterceptor(specs[1..], server, args, cwd);
        }
      } else {
        assert Interceptors(specs, cwd) == rest;
        ChainIsOwnInterceptor(specs[1..], server, args, cwd);
      }
    }
  }

  // ---- Twice is once --------------------------------------------------------------------------------

  /** The texts of an argument that are rewritten. */
  function PathTexts(key: string, a: Arg): set<string> {
    if a.Str? then (if key in PATH_ARG_KEYS then {a.text} else {})
    else if a.Items? && key == "paths" then set i | i in a.items && i.Str? :: i.text
    else {}
  }

  /** A second pass leaves what the first pass made of `raw`. */
  predicate Harmless(raw: string, sandbox: Path) {
    match Destination(raw, sandbox)
    case None => true
    case Some(q) => Settled(Render(q), sandbox)
  }

  lemma FixTextTwice(a: Arg, r: Roots)
    requires Clean(r.sandbox) && r.project == Parent(r.sandbox)
    ensures FixText(FixText(a, r), r) == FixText(a, r) <==> (a.Str? ==> Harmless(a.text, r.sandbox))
  {
    if a.Str? {
      NormalizeTwice(a.text, r.sandbox);
    }
  }

  lemma FixItemsTwice(items: seq<Arg>, r: Roots)
    requires Clean(r.sandbox) && r.project == Parent(r.sandbox)
    ensures FixItems(FixItems(items, r), r) == FixItems(items, r)
            <==> forall i :: 0 <= i < |items| && items[i].Str? ==> Harmless(items[i].text, r.sandbox)
  {
    var once := FixItems(items, r);
    var twice := FixItems(once, r);
    forall i | 0 <= i < |items|
      ensures twice[i] == once[i] <==> (items[i].Str? ==> Harmless(items[i].text, r.sandbox))
    {
      FixTextTwice(items[i], r);
    }
    assert twice == once <==> forall i :: 0 <= i < |items| ==> twice[i] == once[i];
  }

  lemma ListTexts(items: seq<Arg>)
    ensures forall raw :: raw in PathTexts("paths", Items(items))
                          <==> exists i :: 0 <= i < |items| && items[i].Str? && items[i].text == raw
  {
    assert forall i :: 0 <= i < |items| ==> items[i] in items;
  }

  lemma FixValueTwice(key: string, a: Arg, r: Roots)
    requires Clean(r.sandbox) && r.project == Parent(r.sandbox)
    ensures FixValue(key, FixValue(key, a, r), r) == FixValue(key, a, r)
            <==> forall raw :: raw in PathTexts(key, a) ==> Harmless(raw, r.sandbox)
  {
    if a.Str? {
      FixTextTwice(a, r);
    } else if a.Items? && key == "paths" {
      FixItemsTwice(a.items, r);
      ListTexts(a.items);
    }
  }

  lemma FixedTwice(args: Args, r: Roots)
    requires Clean(r.sandbox) && r.project == Parent(r.sandbox)
    ensures Fixed(Fixed(args, r), r) == Fixed(args, r)
            <==> forall key, raw :: key in args && raw in PathTexts(key, args[key]) ==> Harmless(raw, r.sandbox)
  {
    var once := Fixed(args, r);
    var twice := Fixed(once, r);
    forall key | key in args
      ensures twice[key] == once[key]
              <==> forall raw :: raw in PathTexts(key, args[key]) ==> Harmless(raw, r.sandbox)
    {
      FixValueTwice(key, args[key], r);
    }
    if forall key :: key in args ==> twice[key] == once[key] {
      assert twice == once;
    }
  }

  lemma {:induction false} PairIsClean(specs: seq<Spec>, server: string, cwd: Path)
    requires Clean(cwd)
    ensures var p := SandboxPair(specs, server, cwd);
            p.Some? ==> Clean(p.value.sandbox) && p.value.project == Parent(p.value.sandbox)
  {
    if specs != [] {
      if Sandboxed(specs[0]) && specs[0].name == server {
        StdioRootsAreClean(specs[0].args, cwd);
      } else {
        PairIsClean(specs[1..], server, cwd);
      }
    }
  }

  /**
   Double normalization: the handler behind wrapper and chain gets the arguments of a single
   application with the server's own roots, exactly when every path text of the call is one a
   second pass leaves alone. A server without a sandbox gets its arguments untouched.
   */
  lemma DoubleNormalization(specs: seq<Spec>, server: string, args: Args, cwd: Path)
    requires UniqueNames(specs) && Clean(cwd)
    ensures var once := Wrapped(specs, server, args, cwd);
            match SandboxPair(specs, server, cwd)
            case None => once == args && Chain(Interceptors(specs, cwd), server, once) == args
            case Some(r) =>
              Chain(Interceptors(specs, cwd), server, once) == Fixed(args, r)
              <==> forall key, raw :: key in args && raw in PathTexts(key, args[key]) ==> Harmless(raw, r.sandbox)
  {
    var once := Wrapped(specs, server, args, cwd);
    ChainIsOwnInterceptor(specs, server, once, cwd);
    var pair := SandboxPair(specs, server, cwd);
    if pair.Some? {
      PairIsClean(specs, server, cwd);
      FixedTwice(args, pair.value);
    }
  }

  // ---- Which arguments are rewritten, and from which server's sandbox -----------------------------

  lemma SevenKeys(key: string)
    ensures key in PATH_ARG_KEYS
            <==> key == "path" || key == "source" || key == "destination" || key == "from_path"
                 || key == "to_path" || key == "old_path" || key == "new_path"
  {
  }

  /** A text under one of the seven keys is normalised, and under any other key left alone. */
  lemma TextArgument(key: string, text: string, r: Roots)
    ensures FixValue(key, Str(text), r)
            == if key == "path" || key == "source" || key == "destination" || key == "from_path"
                  || key == "to_path" || key == "old_path" || key == "new_path"
               then Str(Normalize(text, r.sandbox, r.project))
               else Str(text)
  {
    SevenKeys(key);
  }

  /** A list is looked into under `paths` only, and there every text is normalised. */
  lemma ListArgument(key: string, items: seq<Arg>, r: Roots)
    ensures key != "paths" ==> FixValue(key, Items(items), r) == Items(items)
    ensures key == "paths" ==>
      var fixed := FixValue(key, Items(items), r);
      && fixed.Items? && |fixed.items| == |items|
      && forall i :: 0 <= i < |items| ==>
           fixed.items[i] == match items[i]
                             case Str(text) => Str(Normalize(text, r.sandbox, r.project))
                             case _ => items[i]
    ensures forall n :: FixValue(key, Other(n), r) == Other(n)
  {
  }

  /** A server has a sandbox exactly if it runs over stdio with arguments, the last of which gives it. */
  lemma {:induction false} SandboxedIff(specs: seq<Spec>, server: string, cwd: Path, i: nat)
    requires UniqueNames(specs) && i < |specs| && specs[i].name == server
    ensures SandboxPair(specs, server, cwd)
            == if specs[i].stdio && specs[i].args != [] then Some(RootsOf(specs[i], cwd)) else None
  {
    if i > 0 {
      assert specs[0].name != server;
      assert specs[1..][i - 1] == specs[i];
      SandboxedIff(specs[1..], server, cwd, i - 1);
    } else if !Sandboxed(specs[0]) {
      forall j | 0 <= j < |specs[1..]|
        ensures specs[1..][j].name != server
      {
        assert specs[1..][j] == specs[j + 1];
      }
      OtherServersOnly(specs[1..], server, map[], cwd);
    }
  }

  lemma RootsAreOfLastArgument(spec: Spec, others: seq<string>, raw: string, cwd: Path)
    requires spec.args == others + [raw]
    ensures var sandbox := Resolve(if raw != "" && raw[0] == '/' then Parts(raw) else cwd + Parts(raw));
            RootsOf(spec, cwd) == Roots(sandbox, if sandbox == [] then [] else sandbox[..|sandbox| - 1])
  {
    SandboxIsLastArgument(others, raw, cwd);
  }
}
