/**
 Rewriting of the paths given to filesystem servers. An absolute path is the sequence of its
 components; there are no symbolic links, so resolution is lexical.
 */
module PathNormalizer {
  import opened Wrappers
  import Text

  type Path = seq<string>

  predicate PlainName(c: string) {
    c != "" && c != "." && c != ".." && '/' !in c
  }

  predicate Clean(p: Path) {
    forall i :: 0 <= i < |p| ==> PlainName(p[i])
  }

  // ---- Resolution -------------------------------------------------------------------------------

  function Push(stack: Path, c: string): Path {
    if c == "" || c == "." then stack
    else if c != ".." then stack + [c]
    else if stack == [] then []
    else stack[..|stack| - 1]
  }

  function Resolve(parts: seq<string>): Path {
    if parts == [] then [] else Push(Resolve(parts[..|parts| - 1]), parts[|parts| - 1])
  }

  method ResolveLoop(parts: seq<string>) returns (stack: Path)
    ensures stack == Resolve(parts)
  {
    stack := [];
    for i := 0 to |parts|
      invariant stack == Resolve(parts[..i])
    {
      assert parts[..i + 1][..i] == parts[..i];
      var c := parts[i];
      if c == ".." {
        if stack != [] {
          stack := stack[..|stack| - 1];
        }
      } else if c != "" && c != "." {
        stack := stack + [c];
      }
    }
    assert parts[..|parts|] == parts;
  }

  ghost predicate SlashFree(parts: seq<string>) {
    forall i :: 0 <= i < |parts| ==> '/' !in parts[i]
  }

  lemma {:induction false} ResolveClean(parts: seq<string>)
    requires SlashFree(parts)
    ensures Clean(Resolve(parts))
  {
    if parts != [] {
      ResolveClean(parts[..|parts| - 1]);
    }
  }

  lemma {:induction false} ResolveOfClean(p: Path)
    requires Clean(p)
    ensures Resolve(p) == p
  {
    if p != [] {
      ResolveOfClean(p[..|p| - 1]);
    }
  }

  /** Resolving in two stages is resolving at once. */
  lemma {:induction false} ResolveStages(a: seq<string>, b: seq<string>)
    requires SlashFree(a)
    ensures Resolve(a + b) == Resolve(Resolve(a) + b)
    decreases |b|
  {
    if b == [] {
      assert a + b == a && Resolve(a) + b == Resolve(a);
      ResolveClean(a);
      ResolveOfClean(Resolve(a));
    } else {
      var most := b[..|b| - 1];
      ResolveStages(a, most);
      assert (a + b)[..|a + b| - 1] == a + most;
      assert (Resolve(a) + b)[..|Resolve(a) + b| - 1] == Resolve(a) + most;
    }
  }

  // ---- The laws of resolution, which determine it -------------------------------------------------

  /** A plain name is entered. */
  lemma NameEnters(parts: seq<string>, c: string)
    requires PlainName(c)
    ensures Resolve(parts + [c]) == Resolve(parts) + [c]
  {
    assert (parts + [c])[..|parts|] == parts;
  }

  /** A dot stays where it is. */
  lemma DotStays(parts: seq<string>)
    ensures Resolve(parts + ["."]) == Resolve(parts)
    ensures Resolve(parts + [""]) == Resolve(parts)
  {
    assert (parts + ["."])[..|parts|] == parts && (parts + [""])[..|parts|] == parts;
  }

  /** Two dots undo the name before them. */
  lemma DotsUndo(parts: seq<string>, c: string)
    requires PlainName(c)
    ensures Resolve(parts + [c, ".."]) == Resolve(parts)
  {
    NameEnters(parts, c);
    assert parts + [c, ".."] == parts + [c] + [".."];
    DotsLeave(parts + [c]);
  }

  lemma DotsLeave(parts: seq<string>)
    ensures Resolve(parts + [".."])
            == if Resolve(parts) == [] then [] else Resolve(parts)[..|Resolve(parts)| - 1]
  {
    assert (parts + [".."])[..|parts|] == parts;
  }

  /** At the root two dots stay there. */
  lemma {:induction false} DotsAtRoot(parts: seq<string>)
    ensures Resolve([".."] + parts) == Resolve(parts)
  {
    if parts == [] {
      assert [".."] + parts == [] + [".."];
      DotsLeave([]);
    } else {
      var most := parts[..|parts| - 1];
      assert ([".."] + parts)[..|parts|] == [".."] + most;
      DotsAtRoot(most);
    }
  }

  function Ups(k: nat): (parts: seq<string>)
    ensures |parts| == k && forall i :: 0 <= i < k ==> parts[i] == ".."
  {
    seq(k, _ => "..")
  }

  lemma {:induction false} ClimbResolves(base: Path, k: nat)
    requires Clean(base)
    ensures Resolve(base + Ups(k)) == base[..if k <= |base| then |base| - k else 0]
  {
    if k == 0 {
      assert base + Ups(k) == base;
      ResolveOfClean(base);
    } else {
      assert base + Ups(k) == base + Ups(k - 1) + [".."];
      ClimbResolves(base, k - 1);
      DotsLeave(base + Ups(k - 1));
    }
  }

  lemma ClimbIsSlashFree(base: Path, k: nat)
    requires Clean(base)
    ensures SlashFree(base + Ups(k))
  {
    forall i | 0 <= i < |base + Ups(k)|
      ensures '/' !in (base + Ups(k))[i]
    {
      if i >= |base| {
        assert (base + Ups(k))[i] == Ups(k)[i - |base|];
      }
    }
  }

  /** Names entered from where a path leads are appended. */
  lemma NamesEnter(parts: seq<string>, top: Path, names: Path)
    requires SlashFree(parts) && Resolve(parts) == top && Clean(names)
    ensures Resolve(parts + names) == top + names
  {
    ResolveClean(parts);
    ResolveStages(parts, names);
    CleanConcat(top, names);
    ResolveOfClean(top + names);
  }

  lemma CleanConcat(a: Path, b: Path)
    requires Clean(a) && Clean(b)
    ensures Clean(a + b)
  {
  }

  /** Climbing k folders and entering names from there. */
  lemma ClimbAndEnter(base: Path, k: nat, names: Path, top: Path)
    requires Clean(base) && Clean(names) && top == base[..if k <= |base| then |base| - k else 0]
    ensures Resolve(base + (Ups(k) + names)) == top + names
  {
    var climbed := base + Ups(k);
    ClimbResolves(base, k);
    ClimbIsSlashFree(base, k);
    JoinThree(base, Ups(k), names);
    NamesEnter(climbed, top, names);
  }

  lemma JoinThree(a: seq<string>, b: seq<string>, c: seq<string>)
    ensures a + (b + c) == (a + b) + c
  {
  }

  // ---- Text and components ------------------------------------------------------------------------

  function LastSlash(s: string): (i: int)
    ensures -1 <= i < |s|
    ensures i >= 0 ==> s[i] == '/'
    ensures forall k :: i < k < |s| ==> s[k] != '/'
  {
    if s == "" then -1 else if s[|s| - 1] == '/' then |s| - 1 else LastSlash(s[..|s| - 1])
  }

  function Split(s: string): seq<string>
    decreases |s|
  {
    var i := LastSlash(s);
    if i < 0 then [s] else Split(s[..i]) + [s[i + 1..]]
  }

  function Significant(parts: seq<string>): seq<string> {
    if parts == [] then []
    else
      var c := parts[|parts| - 1];
      Significant(parts[..|parts| - 1]) + if c == "" || c == "." then [] else [c]
  }

  /** `Path(s).parts` without the root. */
  function Parts(s: string): seq<string> {
    Significant(Split(s))
  }

  function Body(p: Path): string {
    if p == [] then "" else Body(p[..|p| - 1]) + "/" + p[|p| - 1]
  }

  /** `str` of an absolute path. */
  function Render(p: Path): (s: string)
    ensures s != ""
  {
    if p == [] then "/" else Body(p)
  }

  lemma {:induction false} PartsSlashFree(s: string)
    ensures SlashFree(Split(s)) && SlashFree(Parts(s))
    decreases |s|
  {
    var i := LastSlash(s);
    if i >= 0 {
      PartsSlashFree(s[..i]);
      SignificantSnoc(Split(s[..i]), s[i + 1..]);
    } else {
      SignificantSnoc([], s);
      assert [] + [s] == [s];
    }
  }

  lemma SignificantSnoc(parts: seq<string>, c: string)
    ensures Significant(parts + [c]) == Significant(parts) + if c == "" || c == "." then [] else [c]
  {
    assert (parts + [c])[..|parts|] == parts;
  }

  lemma PartsSnoc(a: string, c: string)
    requires '/' !in c
    ensures Parts(a + "/" + c) == Parts(a) + if c == "" || c == "." then [] else [c]
  {
    var s := a + "/" + c;
    assert s[|a|] == '/' && s[..|a|] == a && s[|a| + 1..] == c;
    assert LastSlash(s) == |a|;
    SignificantSnoc(Split(a), c);
  }

  /** Rendering a clean path and taking it apart again is the identity. */
  lemma {:induction false} PartsOfBody(p: Path)
    requires Clean(p)
    ensures Parts(Body(p)) == p
  {
    if p == [] {
      SignificantSnoc([], "");
      assert [] + [""] == [""];
      assert Split("") == [""];
    } else {
      PartsOfBody(p[..|p| - 1]);
      PartsSnoc(Body(p[..|p| - 1]), p[|p| - 1]);
    }
  }

  lemma PartsOfRender(p: Path)
    requires Clean(p)
    ensures Parts(Render(p)) == p
    ensures Resolve(Parts(Render(p))) == p
    ensures Render(p)[0] == '/'
  {
    ResolveOfClean(p);
    if p == [] {
      PartsOfBody([]);
      PartsSnoc("", "");
      assert "" + "/" + "" == "/";
    } else {
      PartsOfBody(p);
      BodyStart(p);
    }
  }

  lemma {:induction false} BodyStart(p: Path)
    requires p != []
    ensures Body(p)[0] == '/'
  {
    if |p| > 1 {
      BodyStart(p[..|p| - 1]);
    }
  }

  lemma RenderInjective(p: Path, q: Path)
    requires Clean(p) && Clean(q) && Render(p) == Render(q)
    ensures p == q
  {
    PartsOfRender(p);
    PartsOfRender(q);
  }

  // ---- The normalizer -----------------------------------------------------------------------------

  function Parent(p: Path): Path {
    if p == [] then [] else p[..|p| - 1]
  }

  function Name(p: Path): string {
    if p == [] then "" else p[|p| - 1]
  }

  function IsQuote(): char -> bool { c => c == '"' }

  function IsApostrophe(): char -> bool { c => c == '\'' }

  function IsSlash(): char -> bool { c => c == '/' }

  function Trim(raw: string): string {
    Text.StripBy(Text.StripBy(Text.Strip(raw), IsQuote()), IsApostrophe())
  }

  predicate IsAbsolute(s: string) {
    s != "" && s[0] == '/'
  }

  function RelativeParts(trimmed: string): seq<string> {
    Parts(Text.StripLeft(Text.ReplaceChar(trimmed, '\\', '/'), IsSlash()))
  }

  /** `_absolute_under_sandbox`; `None` is its `ValueError`. */
  function UnderSandbox(sandbox: Path, parts: seq<string>): Option<string> {
    var root := Resolve(sandbox);
    var candidate := Resolve(root + parts);
    if root <= candidate then Some(Render(candidate)) else None
  }

  function OrRaw(o: Option<string>, raw: string): string {
    match o
    case Some(s) => s
    case None => raw
  }

  /** `normalize_path_string`. */
  function Normalize(raw: string, sandboxRoot: Path, projectRoot: Path): string {
    var trimmed := Trim(raw);
    var sandbox, project := Resolve(sandboxRoot), Resolve(projectRoot);
    if !IsAbsolute(trimmed) then OrRaw(UnderSandbox(sandbox, RelativeParts(trimmed)), raw)
    else
      var rp := Resolve(Parts(trimmed));
      var inside := if sandbox <= rp then UnderSandbox(sandbox, rp[|sandbox|..]) else None;
      if inside.Some? then inside.value
      else if !(project <= rp) then raw
      else
        var parts := rp[|project|..];
        if |parts| == 1 then OrRaw(UnderSandbox(sandbox, [parts[0]]), raw)
        else if parts != [] && parts[0] == Name(sandbox) then OrRaw(UnderSandbox(sandbox, parts[1..]), raw)
        else raw
  }

  // ---- What it computes ---------------------------------------------------------------------------

  /** Where a path is sent, without reference to the code: nowhere means left alone. */
  function Destination(raw: string, sandbox: Path): Option<Path> {
    var trimmed := Trim(raw);
    if !IsAbsolute(trimmed) then
      var q := Resolve(sandbox + RelativeParts(trimmed));
      if sandbox <= q then Some(q) else None
    else
      var rp := Resolve(Parts(trimmed));
      if sandbox <= rp then Some(rp)
      else if rp != [] && Parent(rp) == Parent(sandbox) then Some(sandbox + [Name(rp)])
      else None
  }

  lemma RelativePartsSlashFree(trimmed: string)
    ensures SlashFree(RelativeParts(trimmed))
  {
    PartsSlashFree(Text.StripLeft(Text.ReplaceChar(trimmed, '\\', '/'), IsSlash()));
  }

  lemma JoinedResolvesClean(sandbox: Path, parts: seq<string>)
    requires Clean(sandbox) && SlashFree(parts)
    ensures Clean(Resolve(sandbox + parts))
  {
    assert SlashFree(sandbox + parts);
    ResolveClean(sandbox + parts);
  }

  lemma SiblingInside(rp: Path, sandbox: Path)
    requires Clean(sandbox) && Clean(rp) && rp != []
    ensures Clean(sandbox + [Name(rp)]) && sandbox <= sandbox + [Name(rp)]
  {
  }

  lemma DestinationInside(raw: string, sandbox: Path)
    requires Clean(sandbox) && Destination(raw, sandbox).Some?
    ensures var q := Destination(raw, sandbox).value; Clean(q) && sandbox <= q
  {
    var trimmed := Trim(raw);
    if !IsAbsolute(trimmed) {
      RelativePartsSlashFree(trimmed);
      JoinedResolvesClean(sandbox, RelativeParts(trimmed));
    } else {
      PartsSlashFree(trimmed);
      var rp := Resolve(Parts(trimmed));
      ResolveClean(Parts(trimmed));
      if rp != [] {
        SiblingInside(rp, sandbox);
      }
    }
  }

  lemma UnderSandboxOfClean(sandbox: Path, parts: seq<string>)
    requires Clean(sandbox)
    ensures UnderSandbox(sandbox, parts)
            == if sandbox <= Resolve(sandbox + parts) then Some(Render(Resolve(sandbox + parts))) else None
    ensures Clean(parts) ==> UnderSandbox(sandbox, parts) == Some(Render(sandbox + parts))
  {
    ResolveOfClean(sandbox);
    if Clean(parts) {
      ResolveOfClean(sandbox + parts);
    }
  }

  /** With a project root that is the sandbox's parent, the third rule is never used. */
  lemma FolderRuleIsDead(rp: Path, sandbox: Path)
    requires !(sandbox <= rp) && Parent(sandbox) <= rp && |rp| >= |Parent(sandbox)| + 2
    ensures rp[|Parent(sandbox)|] != Name(sandbox)
  {
    assert sandbox != [] && sandbox == Parent(sandbox) + [Name(sandbox)];
    assert rp[..|sandbox|] == Parent(sandbox) + [rp[|Parent(sandbox)|]];
  }

  /** An absolute path inside is written out resolved. */
  lemma InsideIsKept(rp: Path, sandbox: Path)
    requires Clean(sandbox) && Clean(rp) && sandbox <= rp
    ensures UnderSandbox(sandbox, rp[|sandbox|..]) == Some(Render(rp))
  {
    UnderSandboxOfClean(sandbox, rp[|sandbox|..]);
    assert sandbox + rp[|sandbox|..] == rp;
  }

  /** An absolute path outside is moved only from the parent directory. */
  lemma OutsideIsMoved(rp: Path, sandbox: Path)
    requires Clean(sandbox) && Clean(rp) && !(sandbox <= rp) && Parent(sandbox) <= rp
    ensures var parts := rp[|Parent(sandbox)|..];
            && (|parts| == 1 <==> rp != [] && Parent(rp) == Parent(sandbox))
            && (|parts| == 1 ==> UnderSandbox(sandbox, [parts[0]]) == Some(Render(sandbox + [Name(rp)])))
            && (|parts| >= 2 ==> parts[0] != Name(sandbox))
  {
    var parts := rp[|Parent(sandbox)|..];
    if |parts| == 1 {
      UnderSandboxOfClean(sandbox, [parts[0]]);
    } else if |parts| >= 2 {
      FolderRuleIsDead(rp, sandbox);
    }
  }

  /**
   Every input is returned unchanged or becomes a resolved path inside the sandbox: a relative
   path unless its resolution leaves the sandbox, an absolute path that lies inside, and a file
   of the parent directory, which moves to the same name inside.
   */
  lemma NormalizeIsDestination(raw: string, sandbox: Path)
    requires Clean(sandbox)
    ensures Normalize(raw, sandbox, Parent(sandbox))
            == match Destination(raw, sandbox) { case None => raw case Some(q) => Render(q) }
  {
    var trimmed, project := Trim(raw), Parent(sandbox);
    ResolveOfClean(sandbox);
    ResolveOfClean(project);
    if !IsAbsolute(trimmed) {
      UnderSandboxOfClean(sandbox, RelativeParts(trimmed));
    } else {
      var rp := Resolve(Parts(trimmed));
      assert Clean(rp) by {
        PartsSlashFree(trimmed);
        ResolveClean(Parts(trimmed));
      }
      if sandbox <= rp {
        InsideIsKept(rp, sandbox);
      } else if project <= rp {
        OutsideIsMoved(rp, sandbox);
      }
    }
  }

  /**
   A relative path that climbs k folders and then enters names is left alone exactly if it does
   not come back: unless the names begin with the folders of the sandbox it has left. In
   particular one that only enters names is always moved inside, under those names.
   */
  lemma RelativeIsMovedIff(raw: string, sandbox: Path, k: nat, names: Path)
    requires Clean(sandbox) && Clean(names)
    requires !IsAbsolute(Trim(raw)) && RelativeParts(Trim(raw)) == Ups(k) + names
    ensures var left := if k <= |sandbox| then k else |sandbox|;
            Normalize(raw, sandbox, Parent(sandbox))
            == if sandbox[|sandbox| - left..] <= names then Render(sandbox[..|sandbox| - left] + names) else raw
  {
    var left := if k <= |sandbox| then k else |sandbox|;
    var top := sandbox[..|sandbox| - left];
    assert Resolve(sandbox + RelativeParts(Trim(raw))) == top + names by {
      ClimbAndEnter(sandbox, k, names, top);
    }
    NormalizeIsDestination(raw, sandbox);
    PrefixOfJoin(sandbox, left, names);
  }

  lemma PrefixOfJoin(sandbox: Path, left: nat, names: Path)
    requires left <= |sandbox|
    ensures sandbox <= sandbox[..|sandbox| - left] + names <==> sandbox[|sandbox| - left..] <= names
  {
    var top, own := sandbox[..|sandbox| - left], sandbox[|sandbox| - left..];
    assert sandbox == top + own;
    if sandbox <= top + names {
      assert own == (top + names)[|top|..|sandbox|];
    }
    if own <= names {
      assert top + names == top + own + names[left..];
    }
  }

  /** A relative path that climbs out of the sandbox to another folder or file is left alone. */
  lemma ClimbingOutIsLeftAlone(raw: string, sandbox: Path, names: Path)
    requires Clean(sandbox) && sandbox != [] && Clean(names) && (names == [] || names[0] != Name(sandbox))
    requires !IsAbsolute(Trim(raw)) && RelativeParts(Trim(raw)) == [".."] + names
    ensures Normalize(raw, sandbox, Parent(sandbox)) == raw
  {
    assert [".."] + names == Ups(1) + names;
    RelativeIsMovedIff(raw, sandbox, 1, names);
  }

  // ---- How texts are read ---------------------------------------------------------------------------

  /** Blanks around quotes around apostrophes are removed, in this order and nothing else. */
  lemma TrimUnwraps(w: string, q: string, a: string, core: string, a': string, q': string, w': string)
    requires core != "" && !Trimmable(core[0]) && !Trimmable(core[|core| - 1])
    requires forall i :: 0 <= i < |w + w'| ==> Text.IsSpace((w + w')[i])
    requires forall i :: 0 <= i < |q + q'| ==> (q + q')[i] == '"'
    requires forall i :: 0 <= i < |a + a'| ==> (a + a')[i] == '\''
    ensures Trim(w + (q + (a + core + a') + q') + w') == core
  {
    var one := a + core + a';
    var two := q + one + q';
    Parts2(w, w', Text.IsSpace);
    Parts2(q, q', IsQuote());
    Parts2(a, a', IsApostrophe());
    EndsOf(a, core, a');
    EndsOf(q, one, q');
    Text.StripAround(w, two, w', Text.IsSpace);
    Text.StripAround(q, one, q', IsQuote());
    Text.StripAround(a, core, a', IsApostrophe());
  }

  lemma Parts2(x: string, y: string, p: char -> bool)
    requires forall i :: 0 <= i < |x + y| ==> p((x + y)[i])
    ensures (forall i :: 0 <= i < |x| ==> p(x[i])) && forall i :: 0 <= i < |y| ==> p(y[i])
  {
    forall i | 0 <= i < |x|
      ensures p(x[i])
    {
      assert (x + y)[i] == x[i];
    }
    forall i | 0 <= i < |y|
      ensures p(y[i])
    {
      assert (x + y)[|x| + i] == y[i];
    }
  }

  lemma EndsOf(x: string, core: string, y: string)
    requires core != ""
    ensures var s := x + core + y;
            && s != "" && s[0] == (if x == "" then core[0] else x[0])
            && s[|s| - 1] == (if y == "" then core[|core| - 1] else y[|y| - 1])
  {
  }

  /** A text without them at its ends is taken as it is. */
  lemma TrimKeeps(core: string)
    requires core != "" && !Trimmable(core[0]) && !Trimmable(core[|core| - 1])
    ensures Trim(core) == core
  {
    assert "" + ("" + ("" + core + "") + "") + "" == core;
    TrimUnwraps("", "", "", core, "", "", "");
  }

  /** The components of a relative path: an empty one has none, and a slash or backslash adds one. */
  lemma RelativeSnoc(a: string, c: string)
    requires '/' !in c && '\\' !in c
    ensures RelativeParts("") == []
    ensures RelativeParts(c) == if c == "" || c == "." then [] else [c]
    ensures RelativeParts(a + "/" + c) == RelativeParts(a) + if c == "" || c == "." then [] else [c]
    ensures RelativeParts(a + "\\" + c) == RelativeParts(a + "/" + c)
  {
    OneComponent("");
    OneComponent(c);
    var b := Text.ReplaceChar(a, '\\', '/');
    SlashesReplaced(a, c);
    SlashedSnoc(b, c);
  }

  lemma SlashesReplaced(a: string, c: string)
    requires '\\' !in c
    ensures Text.ReplaceChar(a + "/" + c, '\\', '/') == Text.ReplaceChar(a, '\\', '/') + ("/" + c)
    ensures Text.ReplaceChar(a + "\\" + c, '\\', '/') == Text.ReplaceChar(a, '\\', '/') + ("/" + c)
  {
  }

  lemma OneComponent(c: string)
    requires '/' !in c && '\\' !in c
    ensures RelativeParts(c) == if c == "" || c == "." then [] else [c]
  {
    assert Text.ReplaceChar(c, '\\', '/') == c;
    PartsOfName(c);
  }

  lemma PartsOfName(c: string)
    requires '/' !in c
    ensures Text.StripLeft(c, IsSlash()) == c
    ensures Parts(c) == if c == "" || c == "." then [] else [c]
  {
    SignificantSnoc([], c);
    assert Split(c) == [c] && [] + [c] == [c];
  }

  lemma SlashedSnoc(b: string, c: string)
    requires '/' !in c
    ensures Parts(Text.StripLeft(b + ("/" + c), IsSlash()))
            == Parts(Text.StripLeft(b, IsSlash())) + if c == "" || c == "." then [] else [c]
  {
    StripLeftConcat(b, "/" + c);
    PartsOfName("");
    PartsOfName(c);
    var core := Text.StripLeft(b, IsSlash());
    if core == "" {
      assert ("/" + c)[1..] == c;
      assert Text.StripLeft("/" + c, IsSlash()) == Text.StripLeft(c, IsSlash());
    } else {
      assert core + ("/" + c) == core + "/" + c;
      PartsSnoc(core, c);
    }
  }

  lemma {:induction false} StripLeftConcat(a: string, b: string)
    ensures Text.StripLeft(a + b, IsSlash())
            == if Text.StripLeft(a, IsSlash()) == "" then Text.StripLeft(b, IsSlash())
               else Text.StripLeft(a, IsSlash()) + b
  {
    if a == "" {
      assert a + b == b;
    } else if a[0] == '/' {
      assert (a + b)[1..] == a[1..] + b;
      StripLeftConcat(a[1..], b);
    }
  }

  /** Leading slashes and backslashes of a relative path do not count. */
  lemma LeadingSlashIsDropped(s: string)
    ensures RelativeParts("/" + s) == RelativeParts(s) == RelativeParts("\\" + s)
  {
    var t := Text.ReplaceChar(s, '\\', '/');
    assert Text.ReplaceChar("/" + s, '\\', '/') == "/" + t == Text.ReplaceChar("\\" + s, '\\', '/');
    assert ("/" + t)[1..] == t;
  }

  // ---- Applying it twice ----------------------------------------------------------------------------

  predicate Trimmable(c: char) {
    Text.IsSpace(c) || c == '"' || c == '\''
  }

  function TrimRight(s: string): string {
    Text.StripRight(Text.StripRight(Text.StripRight(s, Text.IsSpace), IsQuote()), IsApostrophe())
  }

  /** On an absolute path trimming only shortens the end, and only by trimmable characters. */
  lemma TrimOfAbsolute(s: string)
    requires IsAbsolute(s)
    ensures Trim(s) == TrimRight(s) && Trim(s) <= s && IsAbsolute(Trim(s))
    ensures forall i :: |Trim(s)| <= i < |s| ==> Trimmable(s[i])
    ensures Trim(s) == s <==> !Trimmable(s[|s| - 1])
  {
    var a := Text.StripRight(s, Text.IsSpace);
    var b := Text.StripRight(a, IsQuote());
    Text.StripRightPrefix(s, Text.IsSpace);
    Text.StripRightPrefix(a, IsQuote());
    Text.StripRightPrefix(b, IsApostrophe());
    assert Text.StripLeft(s, Text.IsSpace) == s;
    assert a != "" && a[0] == '/' && Text.StripLeft(a, IsQuote()) == a;
    assert b != "" && b[0] == '/' && Text.StripLeft(b, IsApostrophe()) == b;
  }

  /** Trimming stops in front of the last component. */
  lemma TrimKeepsFront(front: string, name: string) returns (rest: string)
    requires IsAbsolute(front + "/" + name) && '/' !in name
    ensures Trim(front + "/" + name) == front + "/" + rest && rest <= name
    ensures rest == name <==> !Trimmable((front + "/" + name)[|front + "/" + name| - 1])
  {
    var s := front + "/" + name;
    TrimOfAbsolute(s);
    var t := Trim(s);
    assert s[|front|] == '/' && !Trimmable('/');
    assert |t| > |front|;
    rest := t[|front| + 1..];
    assert s[|front| + 1..] == name;
    assert rest == name[..|rest|];
    assert t == front + "/" + rest;
  }

  /** Resolving a clean path with one more component pushes that component. */
  lemma ResolveSnoc(p: Path, rest: string)
    requires Clean(p) && '/' !in rest
    ensures Resolve(Parts(Body(p) + "/" + rest)) == Push(p, rest)
  {
    PartsSnoc(Body(p), rest);
    PartsOfBody(p);
    ResolveOfClean(p);
    assert (p + [rest])[..|p|] == p;
    assert p + [] == p;
  }

  /**
   Where a rewritten path goes when it is trimmed again: only its last component can change,
   so the path ends at its parent, its grandparent, or at a sibling with a shorter name.
   */
  lemma TrimmedAgain(q: Path) returns (rest: string)
    requires Clean(q) && q != [] && Trimmable(Render(q)[|Render(q)| - 1])
    ensures '/' !in rest && rest < Name(q)
    ensures Resolve(Parts(Trim(Render(q)))) == Push(Parent(q), rest)
  {
    BodyStart(q);
    rest := TrimKeepsFront(Body(Parent(q)), Name(q));
    assert '/' !in rest by {
      assert forall i :: 0 <= i < |rest| ==> rest[i] == Name(q)[i];
    }
    ResolveSnoc(Parent(q), rest);
  }

  /** What can be seen of a rewritten path: a second pass leaves it as it is. */
  predicate Settled(s: string, sandbox: Path)
    requires s != ""
  {
    !Trimmable(s[|s| - 1]) || |Resolve(Parts(Trim(s)))| < |sandbox|
  }

  lemma SecondPass(q: Path, sandbox: Path)
    requires Clean(sandbox) && Clean(q) && sandbox <= q
    ensures Normalize(Render(q), sandbox, Parent(sandbox)) == Render(q) <==> Settled(Render(q), sandbox)
  {
    var s := Render(q);
    PartsOfRender(q);
    TrimOfAbsolute(s);
    NormalizeIsDestination(s, sandbox);
    var rp := Resolve(Parts(Trim(s)));
    if Trimmable(s[|s| - 1]) {
      assert q != [];
      var rest := TrimmedAgain(q);
      if |rp| < |sandbox| {
        assert Destination(s, sandbox) == None;
      } else {
        MovesOn(q, sandbox, rest);
        DestinationInside(s, sandbox);
        if Normalize(s, sandbox, Parent(sandbox)) == s {
          RenderInjective(Destination(s, sandbox).value, q);
        }
      }
    }
  }

  /** A shortened path that stays at the sandbox's depth or below has another destination. */
  lemma MovesOn(q: Path, sandbox: Path, rest: string)
    requires Clean(q) && q != [] && sandbox <= q && '/' !in rest && rest != Name(q)
    requires Resolve(Parts(Trim(Render(q)))) == Push(Parent(q), rest)
    requires IsAbsolute(Trim(Render(q))) && |Push(Parent(q), rest)| >= |sandbox|
    ensures Destination(Render(q), sandbox).Some? && Destination(Render(q), sandbox).value != q
  {
    var rp := Push(Parent(q), rest);
    if sandbox == q && rp != q[..|q| - 1] {
      assert Parent(rp) == Parent(sandbox);
    }
  }

  /**
   When normalizing twice is normalizing once: always for an input that is left alone, and for
   a rewritten one exactly when the emitted path does not end in whitespace or a quote, or what
   is left of it after trimming lies above the sandbox.
   */
  lemma NormalizeTwice(raw: string, sandbox: Path)
    requires Clean(sandbox)
    ensures var once := Normalize(raw, sandbox, Parent(sandbox));
            Normalize(once, sandbox, Parent(sandbox)) == once
            <==> match Destination(raw, sandbox) { case None => true case Some(q) => Settled(Render(q), sandbox) }
  {
    NormalizeIsDestination(raw, sandbox);
    if Destination(raw, sandbox).Some? {
      DestinationInside(raw, sandbox);
      SecondPass(Destination(raw, sandbox).value, sandbox);
    }
  }

  /** An input on which the second pass moves the path: it emits a name that ends in a blank. */
  lemma SecondPassCanMove(sandbox: Path) returns (raw: string)
    requires Clean(sandbox)
    ensures var once := Normalize(raw, sandbox, Parent(sandbox));
            Normalize(once, sandbox, Parent(sandbox)) != once
  {
    var q := sandbox + ["a "];
    var below := q + ["b"];
    raw := Body(below) + "/" + "..";
    BodyStart(below);
    TrimOfAbsolute(raw);
    ResolveSnoc(below, "..");
    assert Parent(below) == q && Parent(q) == sandbox;
    NormalizeIsDestination(raw, sandbox);
    BlankNameMoves(q, sandbox);
    SecondPass(q, sandbox);
  }

  lemma BlankNameMoves(q: Path, sandbox: Path)
    requires Clean(sandbox) && Clean(q) && q != [] && Parent(q) == sandbox && Name(q) == "a "
    ensures !Settled(Render(q), sandbox)
  {
    assert Render(q)[|Render(q)| - 1] == ' ';
    var rest := TrimmedAgain(q);
    assert rest != "..";
  }

  // ---- The roots in use -----------------------------------------------------------------------------

  /** `resolve_stdio_sandbox_directories`; `None` is its `ValueError`. */
  function StdioRoots(args: seq<string>, cwd: Path): Option<(Path, Path)> {
    if args == [] then None
    else
      var raw := args[|args| - 1];
      var sandbox := if IsAbsolute(raw) then Resolve(Parts(raw)) else Resolve(cwd + Parts(raw));
      Some((sandbox, Parent(sandbox)))
  }

  /** It is the last argument that gives the sandbox: resolved, from the working directory if relative. */
  lemma SandboxIsLastArgument(others: seq<string>, raw: string, cwd: Path)
    ensures StdioRoots([], cwd) == None
    ensures StdioRoots(others + [raw], cwd).Some?
    ensures var (sandbox, project) := StdioRoots(others + [raw], cwd).value;
            && sandbox == Resolve(if raw != "" && raw[0] == '/' then Parts(raw) else cwd + Parts(raw))
            && project == if sandbox == [] then [] else sandbox[..|sandbox| - 1]
  {
  }

  /** The roots are resolved, and the project root is the sandbox's parent. */
  lemma StdioRootsAreClean(args: seq<string>, cwd: Path)
    requires args != [] && Clean(cwd)
    ensures StdioRoots(args, cwd).Some?
    ensures var (sandbox, project) := StdioRoots(args, cwd).value; Clean(sandbox) && project == Parent(sandbox)
  {
    var raw := args[|args| - 1];
    PartsSlashFree(raw);
    ResolveClean(Parts(raw));
    assert SlashFree(cwd + Parts(raw));
    ResolveClean(cwd + Parts(raw));
  }
}
