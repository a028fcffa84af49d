/** The module-name normaliser (`fixed_module_name`).
    A name that names an existing file is turned into a dotted module path:
    a trailing `.py` is dropped, then one leading `./`, then every `/`
    becomes `.`.  Any other name is kept as it is.  Whether the name is an
    existing file is a question for the file system, so it is a parameter. */
module ModuleName {

  /** `name.endswith('.py')`. */
  predicate EndsWithPy(name: string)
  {
    |name| >= 3 && name[|name| - 3..] == ".py"
  }

  /** `name.startswith('./')`. */
  predicate StartsWithDotSlash(name: string)
  {
    |name| >= 2 && name[..2] == "./"
  }

  /** `name[:-3]` when `name.endswith('.py')`. */
  function StripPySuffix(name: string): (r: string)
    ensures r + (if r == name then "" else ".py") == name
    ensures EndsWithPy(name) <==> r != name
  {
    if EndsWithPy(name) then
      assert name == name[..|name| - 3] + name[|name| - 3..];
      name[..|name| - 3]
    else name
  }

  /** `name[2:]` when `name.startswith('./')`. */
  function StripDotSlash(name: string): (r: string)
    ensures (if r == name then "" else "./") + r == name
    ensures StartsWithDotSlash(name) <==> r != name
  {
    if StartsWithDotSlash(name) then
      assert name == name[..2] + name[2..];
      name[2..]
    else name
  }

  /** `name.replace('/', '.')`: every `/` becomes `.`, and nothing else moves. */
  function ReplaceSlashes(name: string): (r: string)
    ensures |r| == |name|
    ensures forall i :: 0 <= i < |name| ==> r[i] == if name[i] == '/' then '.' else name[i]
    ensures '/' !in r
    decreases |name|
  {
    if name == [] then []
    else [if name[0] == '/' then '.' else name[0]] + ReplaceSlashes(name[1..])
  }

  /** The file path a name stands for once its `.py` suffix and its leading
      `./` are gone. */
  function PathPart(name: string): string
  {
    StripDotSlash(StripPySuffix(name))
  }

  /** `fixed_module_name`, with `os.path.isfile(name)` given as `isFile`. */
  function FixedModuleName(name: string, isFile: bool): (r: string)
    ensures !isFile ==> r == name
    ensures isFile ==> '/' !in r && |r| == |PathPart(name)|
    ensures isFile ==> forall i :: 0 <= i < |r| ==>
      r[i] == if PathPart(name)[i] == '/' then '.' else PathPart(name)[i]
  {
    if isFile then ReplaceSlashes(PathPart(name)) else name
  }

  /** Turns a dotted module path back into a file path. */
  function DotsToSlashes(name: string): (r: string)
    ensures |r| == |name|
    ensures forall i :: 0 <= i < |name| ==> r[i] == if name[i] == '.' then '/' else name[i]
    decreases |name|
  {
    if name == [] then []
    else [if name[0] == '.' then '/' else name[0]] + DotsToSlashes(name[1..])
  }

  /** For a file path whose parts hold no `.` of their own, the module name
      gives the path back: the normaliser loses nothing but the `./` prefix
      and the `.py` suffix. */
  lemma FixedModuleNameRoundTrip(name: string)
    requires '.' !in PathPart(name)
    ensures DotsToSlashes(FixedModuleName(name, true)) == PathPart(name)
  {
    var p := PathPart(name);
    var r := DotsToSlashes(FixedModuleName(name, true));
    forall i | 0 <= i < |p| ensures r[i] == p[i] {
      assert p[i] != '.';
    }
  }

  /** The input is the module name's path part, with at most a `./` before
      it and a `.py` after it: the `.py` is there exactly when the input ends
      with it, and the `./` exactly when the input without that suffix starts
      with it.  Each is removed once. */
  lemma {:induction false} FixedModuleNameDecomposes(name: string)
    ensures exists prefix, suffix ::
      (prefix == if StartsWithDotSlash(StripPySuffix(name)) then "./" else "") &&
      (suffix == if EndsWithPy(name) then ".py" else "") &&
      name == prefix + PathPart(name) + suffix
  {
    var q := StripPySuffix(name);
    var suffix := if q == name then "" else ".py";
    var prefix := if PathPart(name) == q then "" else "./";
    assert q + suffix == name;
    assert prefix + PathPart(name) == q;
    assert name == prefix + PathPart(name) + suffix;
  }

  /** A relative file path with `./` and `.py` becomes a dotted module name;
      a name that is not a file is kept. */
  lemma FixedModuleNameExamples()
    ensures FixedModuleName("./a/b.py", true) == "a.b"
    ensures FixedModuleName("./a/b.py", false) == "./a/b.py"
  {
    var name := "./a/b.py";
    assert name[5..] == ".py" && name[..5] == "./a/b";
    assert "./a/b"[..2] == "./" && "./a/b"[2..] == "a/b";
    var r := FixedModuleName(name, true);
    assert |r| == 3 && r[0] == 'a' && r[1] == '.' && r[2] == 'b';
  }

  /** A bare `.py` names the empty module. */
  lemma FixedModuleNameOfBareSuffix()
    ensures FixedModuleName(".py", true) == ""
  {
    assert ".py"[0..] == ".py" && ".py"[..0] == "";
  }
}
