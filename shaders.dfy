/** The shader object: a vertex and a fragment shader built from two source
    files with a common `#version` / `#define` prefix, linked into a program,
    and a registry of uniform locations addressed by small integer ids.

    The OpenGL driver is a `Driver` value: the text of the source files, the
    sources it compiles, whether the program links, the handles it creates
    and where each uniform of a linked program lives. */
module Shaders {
  import opened Base
  import opened ShaderText

  /** The environment of a shader load. A file missing from `files` reads as
      empty text. `vertexCompiles` and `fragmentCompiles` are the (prefixed)
      sources each stage accepts; `links` whether two compiled stages link;
      `newProgram`, `newVertex` and `newFragment` the handles the driver
      creates; `locations` the uniforms of the program it links. */
  datatype Driver = Driver(
    files: map<string, string>,
    vertexCompiles: set<string>,
    fragmentCompiles: set<string>,
    links: bool,
    newProgram: nat,
    newVertex: nat,
    newFragment: nat,
    locations: map<string, int>)

  /** The text of a source file; empty when it cannot be read. */
  function FileText(d: Driver, name: string): string
  {
    if name in d.files then d.files[name] else ""
  }

  /** Where the driver puts uniform `name` of `program`: -1 when it has no
      such active uniform, and always -1 for the null program. */
  function Location(d: Driver, program: nat, name: string): int
  {
    if program != 0 && name in d.locations then d.locations[name] else -1
  }

  /** The locations of `names`, in order. */
  function Locations(d: Driver, program: nat, names: seq<string>): seq<int>
  {
    if names == [] then []
    else Locations(d, program, names[..|names| - 1]) + [Location(d, program, names[|names| - 1])]
  }

  /** Uniform id `i` of a registry filled from `names` is the location of
      `names[i]`. */
  lemma {:induction false} LocationsAt(d: Driver, program: nat, names: seq<string>)
    ensures |Locations(d, program, names)| == |names|
    ensures forall i :: 0 <= i < |names| ==> Locations(d, program, names)[i] == Location(d, program, names[i])
  {
    if names != [] {
      var n := |names| - 1;
      LocationsAt(d, program, names[..n]);
      assert forall i :: 0 <= i < n ==> names[..n][i] == names[i];
    }
  }

  /** The handles among `hs` that name an object, in order: the ones an
      unload deletes. */
  function Live(hs: seq<nat>): (r: seq<nat>)
    ensures |r| <= |hs|
    ensures forall i :: 0 <= i < |r| ==> r[i] != 0
  {
    if hs == [] then []
    else (if hs[0] != 0 then [hs[0]] else []) + Live(hs[1..])
  }

  /** The live handles among the three a shader holds. */
  lemma {:induction false} LiveOfThree(a: nat, b: nat, c: nat)
    ensures Live([a, b, c]) == (if a != 0 then [a] else []) + (if b != 0 then [b] else []) + (if c != 0 then [c] else [])
  {
    var la, lb, lc: seq<nat> := (if a != 0 then [a] else []), (if b != 0 then [b] else []), (if c != 0 then [c] else []);
    assert [c][1..] == [];
    assert Live([c]) == lc + Live([]);
    assert [b, c][1..] == [c];
    assert Live([b, c]) == lb + lc;
    assert [a, b, c][1..] == [b, c];
    assert Live([a, b, c]) == la + (lb + lc);
  }

  /** An unload deletes nothing exactly when no handle names an object, and
      every handle it deletes was held. */
  lemma {:induction false} LiveExactly(hs: seq<nat>)
    ensures Live(hs) == [] <==> forall i :: 0 <= i < |hs| ==> hs[i] == 0
    ensures forall h :: h in Live(hs) ==> h in hs
  {
    if hs != [] {
      LiveExactly(hs[1..]);
      assert forall i :: 1 <= i < |hs| ==> hs[i] == hs[1..][i - 1];
    }
  }

  /** What is printed when a shader fails to build: a headline naming both
      files, then each prefixed source as a numbered listing. */
  function FailureReport(vertexFile: string, fragmentFile: string, vertexSource: string, fragmentSource: string): string
  {
    "Shader compilation failure: " + vertexFile + " and " + fragmentFile + "\n\n"
    + "Vertex shader:\n" + Numbered(ListedLines(vertexSource)) + "\n"
    + "Fragment shader:\n" + Numbered(ListedLines(fragmentSource)) + "\n"
  }

  /** Whether a load with these sources produces a usable program: both
      stages compile and the program links. */
  predicate Builds(d: Driver, vertexSource: string, fragmentSource: string)
  {
    vertexSource in d.vertexCompiles && fragmentSource in d.fragmentCompiles && d.links
  }

  /** A value for a uniform, in one of the shapes the setters accept. */
  datatype UniformValue =
    | Mat4f(m: seq<real>)
    | Mat3f(m: seq<real>)
    | Int1(i: int)
    | Float1(f: real)
    | Float3(x: real, y: real, z: real)

  /** Matrices come as 16 or 9 values. */
  predicate WellShaped(v: UniformValue)
  {
    match v
    case Mat4f(m) => |m| == 16
    case Mat3f(m) => |m| == 9
    case _ => true
  }

  /** The driver call that sets the uniform at `loc`. */
  datatype UniformCall = UniformCall(loc: int, value: UniformValue)

  class Shader {
    var program: nat
    var vertexShader: nat
    var fragmentShader: nat
    var uniformLocations: seq<int>

    /** A shader that holds nothing. */
    constructor ()
      ensures program == 0 && vertexShader == 0 && fragmentShader == 0 && uniformLocations == []
    {
      program, vertexShader, fragmentShader, uniformLocations := 0, 0, 0, [];
    }

    /** Whether a program is loaded. */
    predicate GetLoaded()
      reads this
    {
      program != 0
    }

    /** Empties the registry and deletes the program and both shaders, each
        only when it names an object, in that order. */
    method Unload() returns (deleted: seq<nat>)
      modifies this
      ensures program == 0 && vertexShader == 0 && fragmentShader == 0 && uniformLocations == []
      ensures deleted == Live([old(program), old(vertexShader), old(fragmentShader)])
    {
      LiveOfThree(program, vertexShader, fragmentShader);
      uniformLocations := [];
      deleted := [];
      if program != 0 {
        deleted := deleted + [program];
        program := 0;
      }
      if vertexShader != 0 {
        deleted := deleted + [vertexShader];
        vertexShader := 0;
      }
      if fragmentShader != 0 {
        deleted := deleted + [fragmentShader];
        fragmentShader := 0;
      }
    }

    /** Adds the location of `name` in the current program to the registry
        and returns its id. */
    method RegisterUniform(name: string, d: Driver) returns (id: int)
      modifies this
      ensures uniformLocations == old(uniformLocations) + [Location(d, program, name)]
      ensures id == |old(uniformLocations)| && uniformLocations[id] == Location(d, program, name)
      ensures program == old(program) && vertexShader == old(vertexShader) && fragmentShader == old(fragmentShader)
    {
      var loc := Location(d, program, name);
      uniformLocations := uniformLocations + [loc];
      id := |uniformLocations| - 1;
    }

    /** Sets the uniform with id `id`: the driver is called, and success
        reported, exactly when the uniform has a location. */
    method SetUniform(id: int, value: UniformValue) returns (ok: bool, call: Option<UniformCall>)
      requires 0 <= id < |uniformLocations|
      requires WellShaped(value)
      ensures ok <==> uniformLocations[id] >= 0
      ensures call == (if ok then Some(UniformCall(uniformLocations[id], value)) else None)
    {
      var loc := uniformLocations[id];
      call := None;
      if loc >= 0 {
        call := Some(UniformCall(loc, value));
      }
      ok := loc >= 0;
    }

    /** Caches the location of every name of `uniforms`, in order. */
    method CacheUniforms(uniforms: seq<string>, d: Driver)
      requires uniformLocations == []
      modifies this
      ensures uniformLocations == Locations(d, program, uniforms)
      ensures program == old(program) && vertexShader == old(vertexShader) && fragmentShader == old(fragmentShader)
    {
      var i := 0;
      while i < |uniforms|
        invariant 0 <= i <= |uniforms|
        invariant program == old(program) && vertexShader == old(vertexShader) && fragmentShader == old(fragmentShader)
        invariant uniformLocations == Locations(d, program, uniforms[..i])
      {
        assert uniforms[..i + 1][..i] == uniforms[..i];
        uniformLocations := uniformLocations + [Location(d, program, uniforms[i])];
        i := i + 1;
      }
      assert uniforms[..|uniforms|] == uniforms;
    }

    /** Loads a shader: whatever was loaded is unloaded first, both sources
        get the prefix, and the two stages are compiled and linked. On
        success the registry holds the locations of `uniforms`, uniform `i`
        at id `i`; on failure a report with both listings is printed and
        everything is unloaded again. The result is whether a program is
        loaded afterwards. */
    method Load(vertexFile: string, fragmentFile: string, defines: seq<string>, uniforms: seq<string>, d: Driver)
      returns (ok: bool, deleted: seq<nat>, report: string)
      requires FileText(d, vertexFile) != [] && FileText(d, fragmentFile) != []
      modifies this
      ensures var vs := DefinePrefix(defines) + FileText(d, vertexFile);
              var fs := DefinePrefix(defines) + FileText(d, fragmentFile);
              if Builds(d, vs, fs) then
                program == d.newProgram && vertexShader == d.newVertex && fragmentShader == d.newFragment
                && uniformLocations == Locations(d, d.newProgram, uniforms)
                && deleted == Live([old(program), old(vertexShader), old(fragmentShader)])
                && report == ""
              else
                program == 0 && vertexShader == 0 && fragmentShader == 0 && uniformLocations == []
                && deleted == Live([old(program), old(vertexShader), old(fragmentShader)])
                              + Live([d.newProgram, d.newVertex, d.newFragment])
                && report == FailureReport(vertexFile, fragmentFile, vs, fs)
      ensures ok == GetLoaded()
    {
      deleted := Unload();
      var prefix := BuildPrefix(defines);
      var vertexSource := prefix + FileText(d, vertexFile);
      var fragmentSource := prefix + FileText(d, fragmentFile);
      program, vertexShader, fragmentShader := d.newProgram, d.newVertex, d.newFragment;
      var vertexCompiled := vertexSource in d.vertexCompiles;
      var fragmentCompiled := fragmentSource in d.fragmentCompiles;
      var programLinked := d.links;
      report := "";
      if !(vertexCompiled && fragmentCompiled && programLinked) {
        var vertexListing := PrintWithLineNumbers(vertexSource);
        var fragmentListing := PrintWithLineNumbers(fragmentSource);
        report := "Shader compilation failure: " + vertexFile + " and " + fragmentFile + "\n\n"
                  + "Vertex shader:\n" + vertexListing + "\n"
                  + "Fragment shader:\n" + fragmentListing + "\n";
        var more := Unload();
        deleted := deleted + more;
      } else {
        CacheUniforms(uniforms, d);
      }
      ok := GetLoaded();
    }
  }

  /** After a successful load, setting uniform `i` reaches the location the
      driver gives the `i`-th requested name. */
  method SetAfterLoad(s: Shader, vertexFile: string, fragmentFile: string, defines: seq<string>,
                      uniforms: seq<string>, d: Driver, i: nat, value: UniformValue)
      returns (loaded: bool, applied: bool)
    requires FileText(d, vertexFile) != [] && FileText(d, fragmentFile) != []
    requires i < |uniforms| && WellShaped(value)
    modifies s
    ensures loaded ==> (applied <==> d.newProgram != 0 && uniforms[i] in d.locations && d.locations[uniforms[i]] >= 0)
    ensures !loaded ==> !applied
  {
    var deleted, report;
    loaded, deleted, report := s.Load(vertexFile, fragmentFile, defines, uniforms, d);
    applied := false;
    var vs := DefinePrefix(defines) + FileText(d, vertexFile);
    var fs := DefinePrefix(defines) + FileText(d, fragmentFile);
    if Builds(d, vs, fs) {
      LocationsAt(d, d.newProgram, uniforms);
      if loaded {
        var call;
        applied, call := s.SetUniform(i, value);
      }
    }
  }

  /** Unloading twice deletes each object once: the second unload deletes
      nothing. */
  method UnloadTwice(s: Shader) returns (first: seq<nat>, second: seq<nat>)
    modifies s
    ensures first == Live([old(s.program), old(s.vertexShader), old(s.fragmentShader)])
    ensures second == []
  {
    first := s.Unload();
    second := s.Unload();
    LiveOfThree(0, 0, 0);
  }
}
