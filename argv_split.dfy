/** The launcher's argument splitter (`split_argv`).
    The argument vector is divided into the part the launcher parses itself
    (its own options, ending with the module name) and the part handed to the
    module unchanged.  The split is positional: an option token that does not
    carry its value after `=` takes the next token as its value, whatever that
    token looks like. */
module ArgvSplit {

  /** A token that starts with `-` (Python `arg.startswith('-')`). */
  predicate IsFlag(t: string)
  {
    |t| > 0 && t[0] == '-'
  }

  /** A token that holds a `=` (Python `arg.find('=') != -1`). */
  predicate HasInlineValue(t: string)
  {
    '=' in t
  }

  /** The reference definition of the split, read front to back: while the
      launcher phase lasts, an option with an inline value is kept alone, an
      option without one is kept together with the token after it (if any),
      and the first other token is kept as the module name and ends the phase;
      everything after it belongs to the module.  The first token always
      stays with the launcher, and the module part only ever starts after a
      token that is not a flag. */
  function Split(args: seq<string>): (r: (seq<string>, seq<string>))
    ensures args != [] ==> |r.0| > 0 && r.0[0] == args[0]
    ensures r.1 != [] ==> |r.0| > 0 && !IsFlag(r.0[|r.0| - 1])
    decreases |args|
  {
    if args == [] then ([], [])
    else if !IsFlag(args[0]) then ([args[0]], args[1..])
    else if HasInlineValue(args[0]) || |args| == 1 then
      var (s, m) := Split(args[1..]);
      ([args[0]] + s, m)
    else
      var (s, m) := Split(args[2..]);
      ([args[0], args[1]] + s, m)
  }

  /** Zero or more complete launcher options: each one is a flag that either
      holds its value inline or is directly followed by its value token. */
  predicate OptionGroups(s: seq<string>)
    decreases |s|
  {
    s == [] ||
    (IsFlag(s[0]) &&
     if HasInlineValue(s[0]) then OptionGroups(s[1..])
     else |s| >= 2 && OptionGroups(s[2..]))
  }

  /** The shapes a launcher part `s` can take, given the module part `m`:
      complete options closed by the module name (then `m` is arbitrary), or,
      with nothing left for the module, complete options alone or complete
      options followed by one flag whose value is missing. */
  predicate SplitShape(s: seq<string>, m: seq<string>)
  {
    (|s| > 0 && OptionGroups(s[..|s| - 1]) && !IsFlag(s[|s| - 1])) ||
    (m == [] && OptionGroups(s)) ||
    (m == [] && |s| > 0 && OptionGroups(s[..|s| - 1]) &&
     IsFlag(s[|s| - 1]) && !HasInlineValue(s[|s| - 1]))
  }

  /** Python's `list.reverse()` as a value: the last element comes first. */
  function Reversed(s: seq<string>): (r: seq<string>)
    ensures |r| == |s|
    decreases |s|
  {
    if s == [] then [] else [s[|s| - 1]] + Reversed(s[..|s| - 1])
  }

  lemma {:induction false} ReversedAt(s: seq<string>, k: nat)
    requires k < |s|
    ensures Reversed(s)[k] == s[|s| - 1 - k]
    decreases |s|
  {
    if k > 0 {
      ReversedAt(s[..|s| - 1], k - 1);
    }
  }

  /** The scan of `split_argv` from an intermediate state: the tokens kept
      so far, the mode, and the tokens not yet read. */
  ghost function Scan(script: seq<string>, moduleArgs: seq<string>, rest: seq<string>, isModule: bool): (seq<string>, seq<string>)
    decreases |rest|
  {
    if rest == [] then (script, moduleArgs)
    else if isModule then Scan(script, moduleArgs + [rest[0]], rest[1..], true)
    else if !IsFlag(rest[0]) then Scan(script + [rest[0]], moduleArgs, rest[1..], true)
    else if !HasInlineValue(rest[0]) && |rest| >= 2 then Scan(script + [rest[0], rest[1]], moduleArgs, rest[2..], false)
    else Scan(script + [rest[0]], moduleArgs, rest[1..], false)
  }

  lemma {:induction false} ScanModulePhase(script: seq<string>, moduleArgs: seq<string>, rest: seq<string>)
    ensures Scan(script, moduleArgs, rest, true) == (script, moduleArgs + rest)
    decreases |rest|
  {
    if rest != [] {
      ScanModulePhase(script, moduleArgs + [rest[0]], rest[1..]);
      assert rest == [rest[0]] + rest[1..];
      assert moduleArgs + [rest[0]] + rest[1..] == moduleArgs + rest;
    } else {
      assert moduleArgs + rest == moduleArgs;
    }
  }

  lemma {:induction false} ScanIsSplit(script: seq<string>, rest: seq<string>)
    ensures Scan(script, [], rest, false) == (script + Split(rest).0, Split(rest).1)
    decreases |rest|
  {
    if rest == [] {
      assert script + [] == script;
    } else if !IsFlag(rest[0]) {
      ScanModulePhase(script + [rest[0]], [], rest[1..]);
      assert [] + rest[1..] == rest[1..];
    } else if !HasInlineValue(rest[0]) && |rest| >= 2 {
      ScanIsSplit(script + [rest[0], rest[1]], rest[2..]);
      assert script + [rest[0], rest[1]] + Split(rest[2..]).0 == script + ([rest[0], rest[1]] + Split(rest[2..]).0);
    } else {
      ScanIsSplit(script + [rest[0]], rest[1..]);
      assert script + [rest[0]] + Split(rest[1..]).0 == script + ([rest[0]] + Split(rest[1..]).0);
    }
  }

  /** `split_argv`: works on a reversed private copy of the arguments, popping
      tokens off its end, so the caller's sequence is never touched; what is
      still to be read is `argv[used..]`. Its result is exactly the
      reference split. */
  method SplitArgv(argv: seq<string>) returns (scriptArgv: seq<string>, moduleArgv: seq<string>)
    ensures (scriptArgv, moduleArgv) == Split(argv)
  {
    scriptArgv := [];
    var isModuleArgv := false;
    moduleArgv := [];

    var pending := Reversed(argv);
    forall k | 0 <= k < |argv| ensures pending[k] == argv[|argv| - 1 - k] {
      ReversedAt(argv, k);
    }
    ghost var used := 0;
    ScanIsSplit([], argv);
    assert [] + Split(argv).0 == Split(argv).0 && argv[0..] == argv;

    while true
      invariant 0 <= used <= |argv| && |pending| == |argv| - used
      invariant forall k :: 0 <= k < |pending| ==> pending[k] == argv[|argv| - 1 - k]
      invariant Scan(scriptArgv, moduleArgv, argv[used..], isModuleArgv) == Split(argv)
      decreases |pending|
    {
      if |pending| == 0 {
        assert argv[used..] == [];
        break;
      }

      var arg := pending[|pending| - 1];
      pending := pending[..|pending| - 1];
      ghost var r := argv[used..];
      assert r[0] == arg && r[1..] == argv[used + 1..];
      used := used + 1;

      if isModuleArgv {
        moduleArgv := moduleArgv + [arg];
      } else {
        ghost var kept := scriptArgv;
        scriptArgv := scriptArgv + [arg];
        if IsFlag(arg) {
          if !HasInlineValue(arg) && |pending| > 0 {
            var value := pending[|pending| - 1];
            pending := pending[..|pending| - 1];
            assert r[1] == value && r[2..] == argv[used + 1..];
            used := used + 1;
            assert scriptArgv + [value] == kept + [arg, value];
            scriptArgv := scriptArgv + [value];
          }
        } else {
          isModuleArgv := true;
        }
      }
    }
  }

  /** The launcher part followed by the module part is the input, in order. */
  lemma {:induction false} SplitConcat(args: seq<string>)
    ensures Split(args).0 + Split(args).1 == args
    decreases |args|
  {
    if args == [] || !IsFlag(args[0]) {
    } else if HasInlineValue(args[0]) || |args| == 1 {
      SplitConcat(args[1..]);
      assert args == [args[0]] + args[1..];
    } else {
      SplitConcat(args[2..]);
      assert args == [args[0], args[1]] + args[2..];
    }
  }

  lemma GroupsConsInline(a: string, g: seq<string>)
    requires IsFlag(a) && HasInlineValue(a)
    ensures OptionGroups([a] + g) <==> OptionGroups(g)
  {
    assert ([a] + g)[1..] == g;
  }

  lemma GroupsConsPair(a: string, b: string, g: seq<string>)
    requires IsFlag(a) && !HasInlineValue(a)
    ensures OptionGroups([a, b] + g) <==> OptionGroups(g)
  {
    assert ([a, b] + g)[2..] == g;
  }

  /** Every split has one of the shapes of `SplitShape`. */
  lemma {:induction false} SplitHasShape(args: seq<string>)
    ensures SplitShape(Split(args).0, Split(args).1)
    decreases |args|
  {
    if args == [] {
    } else if !IsFlag(args[0]) {
      assert [args[0]][..0] == [];
    } else if HasInlineValue(args[0]) || |args| == 1 {
      var (s, m) := Split(args[1..]);
      SplitHasShape(args[1..]);
      var s' := [args[0]] + s;
      if |args| == 1 && !HasInlineValue(args[0]) {
        assert s' == [args[0]] && s'[..0] == [];
      } else {
        GroupsConsInline(args[0], s);
        if |s| > 0 {
          assert s'[..|s'| - 1] == [args[0]] + s[..|s| - 1];
          GroupsConsInline(args[0], s[..|s| - 1]);
        }
      }
    } else {
      var (s, m) := Split(args[2..]);
      SplitHasShape(args[2..]);
      var s' := [args[0], args[1]] + s;
      GroupsConsPair(args[0], args[1], s);
      if |s| > 0 {
        assert s'[..|s'| - 1] == [args[0], args[1]] + s[..|s| - 1];
        GroupsConsPair(args[0], args[1], s[..|s| - 1]);
      }
    }
  }

  /** Conversely, a decomposition of the input with one of those shapes is
      the split: the shape determines the split uniquely. */
  lemma {:induction false} ShapeIsSplit(args: seq<string>, s: seq<string>, m: seq<string>)
    requires s + m == args
    requires SplitShape(s, m)
    ensures Split(args) == (s, m)
    decreases |s|
  {
    if s == [] {
      assert args == [];
    } else {
      assert args[0] == s[0];
      var last := s[|s| - 1];
      if !IsFlag(s[0]) {
        assert |s| == 1 && s == [s[0]];
        assert args[1..] == m;
      } else if HasInlineValue(s[0]) {
        var t := s[1..];
        assert args[1..] == t + m;
        assert |s| >= 2 ==> s[..|s| - 1] == [s[0]] + t[..|t| - 1];
        if |s| >= 2 {
          GroupsConsInline(s[0], t[..|t| - 1]);
        }
        assert s == [s[0]] + t;
        GroupsConsInline(s[0], t);
        assert SplitShape(t, m);
        ShapeIsSplit(args[1..], t, m);
      } else if |s| == 1 {
        assert m == [];
        assert args == [s[0]] && s == [s[0]] && args[1..] == [];
      } else {
        var t := s[2..];
        assert |args| >= 2 && args[1] == s[1];
        assert args[2..] == t + m;
        assert s == [s[0], s[1]] + t;
        GroupsConsPair(s[0], s[1], t);
        if |s| >= 3 {
          assert s[..|s| - 1] == [s[0], s[1]] + t[..|t| - 1];
          GroupsConsPair(s[0], s[1], t[..|t| - 1]);
        } else {
          assert s[..|s| - 1] == [s[0]];
          assert !OptionGroups(s[..|s| - 1]);
        }
        assert SplitShape(t, m);
        ShapeIsSplit(args[2..], t, m);
      }
    }
  }

  /** The split is characterised by its shape: `(s, m)` is the split of
      `args` exactly when `s ++ m == args` and `(s, m)` has a split shape. */
  lemma SplitCharacterized(args: seq<string>, s: seq<string>, m: seq<string>)
    ensures Split(args) == (s, m) <==> s + m == args && SplitShape(s, m)
  {
    if Split(args) == (s, m) {
      SplitConcat(args);
      SplitHasShape(args);
    }
    if s + m == args && SplitShape(s, m) {
      ShapeIsSplit(args, s, m);
    }
  }

  /** The module part is non-empty only after a module name: then the last
      launcher token is not a flag, and the module part is everything after
      the launcher part. */
  lemma ModuleArgvFollowsName(args: seq<string>)
    ensures var (s, m) := Split(args);
      m != [] ==> |s| > 0 && !IsFlag(s[|s| - 1]) && OptionGroups(s[..|s| - 1])
  {
    SplitHasShape(args);
  }

  /** If the input holds no launcher positional (every token read in the
      launcher phase is a flag), the module part is empty and the whole input
      is launcher options; an option without an inline value that comes last
      takes nothing. */
  lemma {:induction false} AllOptionsNoModule(args: seq<string>)
    requires forall i :: 0 <= i < |args| ==> IsFlag(args[i])
    ensures Split(args) == (args, [])
    decreases |args|
  {
    if args == [] {
    } else if HasInlineValue(args[0]) || |args| == 1 {
      AllOptionsNoModule(args[1..]);
      assert args == [args[0]] + args[1..];
    } else {
      AllOptionsNoModule(args[2..]);
      assert args == [args[0], args[1]] + args[2..];
    }
  }

  /** An option without an inline value takes the next token as its value
      whatever it looks like, and that token never ends the launcher phase;
      an option with an inline value takes nothing. */
  lemma OptionValueTaken(args: seq<string>)
    requires |args| >= 2 && IsFlag(args[0])
    ensures !HasInlineValue(args[0]) ==>
      Split(args) == ([args[0], args[1]] + Split(args[2..]).0, Split(args[2..]).1)
    ensures HasInlineValue(args[0]) ==>
      Split(args) == ([args[0]] + Split(args[1..]).0, Split(args[1..]).1)
  {
  }

  /** Worked examples of the code as written. */
  lemma SplitExamples()
    ensures Split(["-p", "3", "mymodule", "a", "b"]) == (["-p", "3", "mymodule"], ["a", "b"])
    ensures Split(["mymodule"]) == (["mymodule"], [])
    ensures Split(["-p=3", "mymodule"]) == (["-p=3", "mymodule"], [])
    ensures Split(["-p", "-x", "m", "-y"]) == (["-p", "-x", "m"], ["-y"])
  {
    assert "-p" == ['-', 'p'] && IsFlag("-p") && !HasInlineValue("-p");
    assert "-p=3" == ['-', 'p', '=', '3'] && IsFlag("-p=3") && HasInlineValue("-p=3");
    assert "mymodule"[0] == 'm' && "m"[0] == 'm';
    var a := ["-p", "3", "mymodule", "a", "b"];
    assert a[2..] == ["mymodule", "a", "b"] && Split(a[2..]) == (["mymodule"], ["a", "b"]);
    assert IsFlag(a[0]) && !HasInlineValue(a[0]) && |a| != 1;
    assert Split(a) == ([a[0], a[1]] + Split(a[2..]).0, Split(a[2..]).1);
    assert [a[0], a[1]] + ["mymodule"] == ["-p", "3", "mymodule"];
    assert Split(a).0 == ["-p", "3", "mymodule"];
    assert Split(a).1 == ["a", "b"];
    var b := ["mymodule"];
    assert b[1..] == [];
    var c := ["-p=3", "mymodule"];
    assert c[1..] == ["mymodule"] && Split(c[1..]) == (["mymodule"], []);
    assert IsFlag(c[0]) && HasInlineValue(c[0]);
    assert Split(c) == ([c[0]] + ["mymodule"], []);
    assert [c[0]] + ["mymodule"] == ["-p=3", "mymodule"];
    var d := ["-p", "-x", "m", "-y"];
    assert d[2..] == ["m", "-y"] && Split(d[2..]) == (["m"], ["-y"]);
    assert IsFlag(d[0]) && !HasInlineValue(d[0]) && |d| != 1;
    assert Split(d) == ([d[0], d[1]] + ["m"], ["-y"]);
    assert [d[0], d[1]] + ["m"] == ["-p", "-x", "m"];
  }
}
