/** How `process_command` picks a handler for a script and where it writes
    the script: the executor dispatch, the space-joined full command name,
    the file name derived from it and the path inside the output directory. */
module Naming {
  import opened Wrappers
  import opened Text
  import opened Handlers

  /** The dispatch in `process_command`: exact, case-sensitive tags, with the
      catch-all for everything else. It has no arm for Nushell. */
  function Dispatch(executor: string): (h: Handler)
    ensures h != Nushell
    ensures h == Shellcheck <==> executor == "sh" || executor == "bash"
    ensures h == Ruff <==> executor == "py" || executor == "python"
    ensures h == Rubocop <==> executor == "rb" || executor == "ruby"
  {
    if executor == "sh" || executor == "bash" then Shellcheck
    else if executor == "py" || executor == "python" then Ruff
    else if executor == "rb" || executor == "ruby" then Rubocop
    else Catchall
  }

  /** `Dispatch` with the `nu`/`nushell` arm that the Nushell handler of
      `src/handlers.rs` would need. */
  function RegistryDispatch(executor: string): Handler {
    if executor == "nu" || executor == "nushell" then Nushell else Dispatch(executor)
  }

  /** The walker's dispatch agrees with that extended dispatch on every tag
      except the two Nushell tags, which it sends to the catch-all. */
  lemma DispatchDiffersOnlyOnNushell(executor: string)
    ensures Dispatch(executor) == RegistryDispatch(executor) <==> executor != "nu" && executor != "nushell"
    ensures executor == "nu" || executor == "nushell" ==> Dispatch(executor) == Catchall
  {
  }

  /** No executor tag reaches the Nushell handler. */
  lemma NushellUnreachable(executor: string)
    ensures Dispatch(executor) != Nushell
    ensures Dispatch(executor) == Catchall <==> Extension(Dispatch(executor)) == ""
  {
    ExtensionIdentifiesHandler(Dispatch(executor), Catchall);
  }

  /** A top-level command is named by its own name; a subcommand by its
      parent's full name, a space, and its own name. */
  function FullName(parent: Option<string>, name: string): string {
    match parent
    case None => name
    case Some(p) => p + " " + name
  }

  /** The full name of the command reached by following `names` down from a
      top-level command, computed one level at a time as the walker does. */
  function ChainName(names: seq<string>): string
    requires |names| >= 1
    decreases |names|
  {
    if |names| == 1 then FullName(None, names[0])
    else FullName(Some(ChainName(names[..|names| - 1])), names[|names| - 1])
  }

  /** The full name is the ancestors' names and the command's own name joined
      with single spaces. */
  lemma {:induction false} ChainNameIsJoin(names: seq<string>)
    requires |names| >= 1
    ensures ChainName(names) == Join(names, ' ')
    decreases |names|
  {
    if |names| > 1 {
      var front := names[..|names| - 1];
      ChainNameIsJoin(front);
      assert names == front + [names[|names| - 1]];
      JoinSnoc(front, names[|names| - 1], ' ');
    }
  }

  /** When no name contains a space, the full name determines the whole
      chain of names. */
  lemma ChainNameRecoversNames(names: seq<string>)
    requires |names| >= 1
    requires forall i :: 0 <= i < |names| ==> ' ' !in names[i]
    ensures Split(ChainName(names), ' ') == names
  {
    ChainNameIsJoin(names);
    SplitJoin(names, ' ');
  }

  /** Every space turned into an underscore, position by position. */
  function Underscored(s: string): string {
    seq(|s|, i requires 0 <= i < |s| => if s[i] == ' ' then '_' else s[i])
  }

  /** That is exactly what `replace(" ", "_")` does. */
  lemma UnderscoredIsReplace(s: string)
    ensures Underscored(s) == ReplaceAll(s, " ", "_")
  {
    ReplaceCharPointwise(s, ' ', '_');
  }

  /** The script's file name: the full name with every space turned into an
      underscore, followed by the handler's extension. */
  function FileName(fullName: string, h: Handler): string {
    Underscored(fullName) + Extension(h)
  }

  /** The file name keeps the full name's length and characters except that
      each space becomes an underscore, ends with the handler's extension,
      and contains no space. */
  lemma FileNameShape(fullName: string, h: Handler)
    ensures |FileName(fullName, h)| == |fullName| + |Extension(h)|
    ensures forall i :: 0 <= i < |fullName| ==>
      FileName(fullName, h)[i] == (if fullName[i] == ' ' then '_' else fullName[i])
    ensures FileName(fullName, h)[|fullName|..] == Extension(h)
    ensures ' ' !in FileName(fullName, h)
  {
    var r := FileName(fullName, h);
    forall i | 0 <= i < |r| ensures r[i] != ' ' {
      if i >= |fullName| {
        assert r[i] == Extension(h)[i - |fullName|];
      }
    }
  }

  /** A top-level command's file is named by its name and the extension,
      when the name has no space. */
  lemma TopLevelFileName(name: string, h: Handler)
    requires ' ' !in name
    ensures FileName(FullName(None, name), h) == name + Extension(h)
  {
    var r := Underscored(name);
    forall i | 0 <= i < |name| ensures r[i] == name[i] {
    }
  }

  /** A subcommand's file is named by the parent's name, an underscore,
      the subcommand's name and the extension, when neither name has a
      space. */
  lemma SubcommandFileName(parent: string, child: string, h: Handler)
    requires ' ' !in parent && ' ' !in child
    ensures FileName(FullName(Some(parent), child), h) == parent + "_" + child + Extension(h)
  {
    var full := parent + " " + child;
    var r := FileName(full, h);
    var want := parent + "_" + child + Extension(h);
    FileNameShape(full, h);
    forall i | 0 <= i < |r| ensures r[i] == want[i] {
      if i < |parent| {
        assert full[i] == parent[i];
      } else if i == |parent| {
      } else if i < |full| {
        assert full[i] == child[i - |parent| - 1];
        assert want[i] == child[i - |parent| - 1];
      } else {
        assert r[i] == r[|full|..][i - |full|];
      }
    }
  }

  /** Full names without underscores give distinct file names for the same
      handler. */
  lemma FileNameInjective(a: string, b: string, h: Handler)
    requires '_' !in a && '_' !in b
    requires FileName(a, h) == FileName(b, h)
    ensures a == b
  {
    FileNameShape(a, h);
    FileNameShape(b, h);
    assert |a| == |b|;
    forall i | 0 <= i < |a| ensures a[i] == b[i] {
      assert FileName(a, h)[i] == FileName(b, h)[i];
    }
  }

  /** A space and an underscore are the same in a file name, so `a b` and
      `a_b` collide. */
  lemma SpaceAndUnderscoreCollide(h: Handler)
    ensures FileName("a b", h) == FileName("a_b", h)
  {
    FileNameShape("a b", h);
    FileNameShape("a_b", h);
    var x := FileName("a b", h);
    var y := FileName("a_b", h);
    assert x[..3] == "a_b" == y[..3];
    assert x == x[..3] + x[3..] && y == y[..3] + y[3..];
  }

  /** `Path::join` on Unix: an absolute name replaces the directory;
      otherwise a `/` is put between them unless the directory is empty or
      already ends with one. */
  function JoinPath(dir: string, name: string): string {
    if |name| > 0 && name[0] == '/' then name
    else if |dir| == 0 || dir[|dir| - 1] == '/' then dir + name
    else dir + "/" + name
  }

  predicate IsAbsolute(name: string) {
    |name| > 0 && name[0] == '/'
  }

  /** An absolute name is the path; a relative one ends the path, after the
      directory. */
  lemma JoinPathShape(dir: string, name: string)
    ensures IsAbsolute(name) ==> JoinPath(dir, name) == name
    ensures !IsAbsolute(name) ==>
      var p := JoinPath(dir, name);
      dir <= p && |name| <= |p| && p[|p| - |name|..] == name && |p| <= |dir| + 1 + |name|
  {
  }

  /** For relative names, the path determines the name. */
  lemma JoinPathInjective(dir: string, a: string, b: string)
    requires !IsAbsolute(a) && !IsAbsolute(b)
    ensures JoinPath(dir, a) == JoinPath(dir, b) <==> a == b
  {
    JoinPathShape(dir, a);
    JoinPathShape(dir, b);
    var pa := JoinPath(dir, a);
    var pb := JoinPath(dir, b);
    if pa == pb {
      assert |pa| - |a| == |pb| - |b|;
      assert a == pa[|pa| - |a|..];
    }
  }

  /** The file a script is written to. */
  function ScriptPath(outDir: string, fullName: string, h: Handler): string {
    JoinPath(outDir, FileName(fullName, h))
  }

  /** A relative name is put after the directory, with a `/` between them
      unless the directory is empty or already ends in one. */
  lemma JoinRelative(dir: string, name: string)
    requires !IsAbsolute(name)
    ensures var sep := if |dir| == 0 || dir[|dir| - 1] == '/' then "" else "/";
            JoinPath(dir, name) == dir + sep + name
  {
    if |dir| == 0 || dir[|dir| - 1] == '/' {
      assert dir + "" + name == dir + name;
    }
  }
}
