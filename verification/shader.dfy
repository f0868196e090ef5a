/**
 * The shader object: which files of a shader folder become which pipeline
 * stage, the check that a program has at least a vertex and a fragment
 * stage, the uniform-location cache, and the active-shader switch.
 */
module Shader {
  import opened Wrappers
  import opened LineStream
  import opened Attributes

  /** The pipeline stages a folder can supply, with their bits in the stage mask. */
  datatype Stage = Vertex | Fragment | Geometry {
    function Bit(): (b: bv8)
      ensures b == 1 || b == 2 || b == 4
    {
      match this
      case Vertex => 1
      case Fragment => 2
      case Geometry => 4
    }
  }

  /**
   * The stage a file name selects. A name can mention several stages; the
   * tests run vertex, then fragment, then geometry, and the first match wins.
   */
  function Classify(fileName: string): (s: Option<Stage>)
    ensures s == Some(Vertex) <==> Contains(fileName, "vertex_shader")
    ensures s == Some(Fragment) <==> !Contains(fileName, "vertex_shader") && Contains(fileName, "fragment_shader")
    ensures s == Some(Geometry) <==>
      !Contains(fileName, "vertex_shader") && !Contains(fileName, "fragment_shader") && Contains(fileName, "geometry_shader")
  {
    if Contains(fileName, "vertex_shader") then Some(Vertex)
    else if Contains(fileName, "fragment_shader") then Some(Fragment)
    else if Contains(fileName, "geometry_shader") then Some(Geometry)
    else None
  }

  /** A directory entry of the shader folder; `lines` is the file's text split into lines. */
  datatype Entry = Entry(isRegular: bool, fileName: string, lines: seq<string>)

  /** A linked program: the stage mask, the stages attached in folder order, and the vertex attributes. */
  datatype Program = Program(stages: bv8, attached: seq<Stage>, attributes: seq<Attribute>)

  datatype ShaderError = MissingStage | BadAttribute(ParseError)

  /** The stage an entry contributes: only regular files count. */
  function StageOf(e: Entry): (s: Option<Stage>)
    ensures s.Some? ==> e.isRegular
  {
    if e.isRegular then Classify(e.fileName) else None
  }

  /** Some entry of the folder supplies stage `s`. */
  predicate Supplies(entries: seq<Entry>, s: Stage) {
    exists i :: 0 <= i < |entries| && StageOf(entries[i]) == Some(s)
  }

  /** The stages of the folder's entries, in folder order. */
  function Stages(entries: seq<Entry>): (r: seq<Stage>)
    ensures |r| <= |entries|
  {
    if entries == [] then []
    else
      var prefix := Stages(entries[..|entries| - 1]);
      match StageOf(entries[|entries| - 1])
      case Some(s) => prefix + [s]
      case None => prefix
  }

  /** The stage mask the folder's entries build up: one bit per stage supplied. */
  function StageMask(entries: seq<Entry>): bv8 {
    if entries == [] then 0
    else
      var prefix := StageMask(entries[..|entries| - 1]);
      match StageOf(entries[|entries| - 1])
      case Some(s) => prefix | s.Bit()
      case None => prefix
  }

  /** The vertex attributes of every vertex file, concatenated in folder order. */
  function VertexAttributes(entries: seq<Entry>): (r: Result<seq<Attribute>, ParseError>)
  {
    if entries == [] then Ok([])
    else
      match VertexAttributes(entries[..|entries| - 1])
      case Err(e) => Err(e)
      case Ok(prefix) =>
        match AttributesOf(entries[|entries| - 1])
        case Err(e) => Err(e)
        case Ok(a) => Ok(prefix + a)
  }

  /** The attributes one entry declares: those of a vertex file, none for any other entry. */
  function AttributesOf(e: Entry): (r: Result<seq<Attribute>, ParseError>)
    ensures StageOf(e) != Some(Vertex) ==> r == Ok([])
  {
    if StageOf(e) == Some(Vertex) then ParseAttributes(e.lines) else Ok([])
  }

  /**
   * Build a program from a folder's entries: attach each classified file,
   * collect the vertex attributes, and refuse a folder that lacks a vertex
   * or a fragment stage.
   */
  method Construct(entries: seq<Entry>) returns (r: Result<Program, ShaderError>)
    ensures r.Ok? ==> Supplies(entries, Vertex) && Supplies(entries, Fragment)
    ensures r.Ok? ==> forall s: Stage :: (r.value.stages & s.Bit() != 0 <==> Supplies(entries, s))
    ensures r.Ok? ==> r.value.stages & 0xF8 == 0
    ensures r.Ok? ==> r.value.attached == Stages(entries)
    ensures r.Ok? ==> VertexAttributes(entries) == Ok(r.value.attributes)
    ensures r.Err? && r.error.BadAttribute? <==> VertexAttributes(entries).Err?
    ensures r == Err(MissingStage) <==>
      VertexAttributes(entries).Ok? && !(Supplies(entries, Vertex) && Supplies(entries, Fragment))
  {
    var collected := Collect(entries);
    if collected.Err? {
      return Err(BadAttribute(collected.error));
    }
    StageMaskSupplies(entries);
    var stages := collected.value.stages;
    if stages & Vertex.Bit() == 0 || stages & Fragment.Bit() == 0 {
      return Err(MissingStage);
    }
    return Ok(collected.value);
  }

  /**
   * The pass over the folder's entries in folder order: build the stage
   * mask, attach each classified file, and gather the vertex attributes,
   * stopping at the first file whose attributes do not parse.
   */
  method Collect(entries: seq<Entry>) returns (r: Result<Program, ParseError>)
    ensures r.Ok? <==> VertexAttributes(entries).Ok?
    ensures r.Err? ==> VertexAttributes(entries) == Err(r.error)
    ensures r.Ok? ==> r.value == Program(StageMask(entries), Stages(entries), VertexAttributes(entries).value)
  {
    var stages: bv8 := 0;
    var attached: seq<Stage> := [];
    var attributes: seq<Attribute> := [];
    var i := 0;
    while i < |entries|
      invariant 0 <= i <= |entries|
      invariant stages == StageMask(entries[..i])
      invariant attached == Stages(entries[..i])
      invariant VertexAttributes(entries[..i]) == Ok(attributes)
    {
      var e := entries[i];
      var stage := StageOf(e);
      var parsed := AttributesOf(e);
      PrefixStep(entries, i);
      if parsed.Err? {
        VertexAttributesFailPersists(entries, i + 1, parsed.error);
        return Err(parsed.error);
      }
      attributes := attributes + parsed.value;
      stages := if stage.Some? then stages | stage.value.Bit() else stages;
      attached := attached + (if stage.Some? then [stage.value] else []);
      i := i + 1;
    }
    assert entries[..i] == entries;
    return Ok(Program(stages, attached, attributes));
  }

  /** The mask has exactly the bits of the stages the folder supplies, and no other bit. */
  lemma {:induction false} StageMaskSupplies(entries: seq<Entry>)
    ensures StageMask(entries) & 0xF8 == 0
    ensures forall s: Stage :: (StageMask(entries) & s.Bit() != 0 <==> Supplies(entries, s))
    decreases |entries|
  {
    if entries != [] {
      var n := |entries| - 1;
      StageMaskSupplies(entries[..n]);
      SuppliesStep(entries, n);
      assert entries[..n + 1] == entries;
      match StageOf(entries[n]) {
        case Some(s) => AddStage(StageMask(entries[..n]), s);
        case None =>
      }
    }
  }

  /** Setting a stage's bit adds exactly that stage to the mask. */
  lemma AddStage(stages: bv8, s: Stage)
    requires stages & 0xF8 == 0
    ensures (stages | s.Bit()) & 0xF8 == 0
    ensures forall t: Stage :: ((stages | s.Bit()) & t.Bit() != 0 <==> stages & t.Bit() != 0 || t == s)
  {
  }

  /** The stages and attributes of a prefix one entry longer. */
  lemma PrefixStep(entries: seq<Entry>, i: nat)
    requires i < |entries|
    ensures var p, e := entries[..i], entries[i];
      && Stages(entries[..i + 1]) == Stages(p) + (if StageOf(e).Some? then [StageOf(e).value] else [])
      && StageMask(entries[..i + 1]) == (if StageOf(e).Some? then StageMask(p) | StageOf(e).value.Bit() else StageMask(p))
      && VertexAttributes(entries[..i + 1]) ==
        match VertexAttributes(p)
        case Err(x) => Err(x)
        case Ok(prefix) =>
          match AttributesOf(e)
          case Err(x) => Err(x)
          case Ok(a) => Ok(prefix + a)
  {
    assert entries[..i + 1][..i] == entries[..i];
    assert entries[..i + 1][i] == entries[i];
  }

  /** A folder supplies a stage after one more entry exactly when the prefix did or the entry does. */
  lemma SuppliesStep(entries: seq<Entry>, i: nat)
    requires i < |entries|
    ensures forall s: Stage :: Supplies(entries[..i + 1], s) <==>
      Supplies(entries[..i], s) || StageOf(entries[i]) == Some(s)
  {
    forall s: Stage
      ensures Supplies(entries[..i + 1], s) <==> Supplies(entries[..i], s) || StageOf(entries[i]) == Some(s)
    {
      if Supplies(entries[..i], s) {
        var j :| 0 <= j < i && StageOf(entries[..i][j]) == Some(s);
        assert entries[..i + 1][j] == entries[..i][j];
      }
      if StageOf(entries[i]) == Some(s) {
        assert entries[..i + 1][i] == entries[i];
      }
      if Supplies(entries[..i + 1], s) {
        var j :| 0 <= j < i + 1 && StageOf(entries[..i + 1][j]) == Some(s);
        if j < i {
          assert entries[..i][j] == entries[..i + 1][j];
        }
      }
    }
  }

  /** Once a prefix of the folder fails to parse, the whole folder fails with the same error. */
  lemma {:induction false} VertexAttributesFailPersists(entries: seq<Entry>, i: nat, error: ParseError)
    requires i <= |entries| && VertexAttributes(entries[..i]) == Err(error)
    ensures VertexAttributes(entries) == Err(error)
    decreases |entries| - i
  {
    if i < |entries| {
      assert entries[..i + 1][..i] == entries[..i];
      VertexAttributesFailPersists(entries, i + 1, error);
    } else {
      assert entries[..i] == entries;
    }
  }

  /**
   * The uniform-location cache of one program. `query` stands for
   * `glGetUniformLocation` on the linked program: a fixed function of the
   * uniform's name.
   */
  type Cache = map<string, int>

  /**
   * A cached name answers from the cache; any other name is queried once
   * and remembered.
   */
  function GetUniformLocation(cache: Cache, query: string -> int, name: string): (r: (int, Cache))
    ensures name in r.1 && r.1[name] == r.0
    ensures name in cache ==> r.0 == cache[name] && r.1 == cache
    ensures name !in cache ==> r.0 == query(name)
    ensures r.1.Keys == cache.Keys + {name}
    ensures forall n :: n in cache ==> r.1[n] == cache[n]
  {
    if name in cache then (cache[name], cache)
    else (query(name), cache[name := query(name)])
  }

  /** Every remembered location is what the query would answer. */
  predicate Coherent(cache: Cache, query: string -> int) {
    forall n :: n in cache ==> cache[n] == query(n)
  }

  /** A coherent cache stays coherent, and answers as the query itself would. */
  lemma CachedAnswersQuery(cache: Cache, query: string -> int, name: string)
    requires Coherent(cache, query)
    ensures Coherent(GetUniformLocation(cache, query, name).1, query)
    ensures GetUniformLocation(cache, query, name).0 == query(name)
  {
  }

  /** Asking again for the same name changes nothing and gives the same answer. */
  lemma LookupIdempotent(cache: Cache, query: string -> int, name: string)
    ensures var (v, c) := GetUniformLocation(cache, query, name);
      GetUniformLocation(c, query, name) == (v, c)
  {
  }

  /** A run of lookups, threading the cache through. */
  function LookupAll(cache: Cache, query: string -> int, names: seq<string>): (r: (seq<int>, Cache))
    ensures |r.0| == |names|
    decreases |names|
  {
    if names == [] then ([], cache)
    else
      var (v, c) := GetUniformLocation(cache, query, names[0]);
      var (vs, c') := LookupAll(c, query, names[1..]);
      ([v] + vs, c')
  }

  /**
   * Starting from a coherent cache (the empty one included), a run of
   * lookups answers each name with the query's own answer, and the cache
   * ends up holding exactly the names asked for on top of what it held.
   */
  lemma {:induction false} LookupAllAnswersQuery(cache: Cache, query: string -> int, names: seq<string>)
    requires Coherent(cache, query)
    ensures forall k :: 0 <= k < |names| ==> LookupAll(cache, query, names).0[k] == query(names[k])
    ensures Coherent(LookupAll(cache, query, names).1, query)
    ensures LookupAll(cache, query, names).1.Keys == cache.Keys + set n | n in names
    decreases |names|
  {
    if names != [] {
      var (v, c) := GetUniformLocation(cache, query, names[0]);
      CachedAnswersQuery(cache, query, names[0]);
      LookupAllAnswersQuery(c, query, names[1..]);
      var (vs, c') := LookupAll(c, query, names[1..]);
      forall k | 0 <= k < |names|
        ensures ([v] + vs)[k] == query(names[k])
      {
        if k > 0 {
          assert names[1..][k - 1] == names[k];
        }
      }
      assert (set n | n in names) == {names[0]} + set n | n in names[1..];
    }
  }

  /**
   * The GL side of `Use`: the shader object last made active (by identity)
   * and the programs passed to `glUseProgram`, oldest first.
   */
  datatype GlState = GlState(active: Option<ShaderRef>, issued: seq<nat>)

  /** A shader object: its identity and the program it links. */
  datatype ShaderRef = ShaderRef(id: nat, program: nat)

  /** Make `shader` active, issuing `glUseProgram` only when another shader was active. */
  function Use(st: GlState, shader: ShaderRef): (r: GlState)
    ensures r.active == Some(shader)
    ensures st.active == Some(shader) ==> r == st
    ensures st.active != Some(shader) ==> r.issued == st.issued + [shader.program]
  {
    if st.active == Some(shader) then st
    else GlState(Some(shader), st.issued + [shader.program])
  }

  /** GL's current program is the active shader's program. */
  predicate InSync(st: GlState) {
    st.active.Some? ==> |st.issued| > 0 && st.issued[|st.issued| - 1] == st.active.value.program
  }

  /**
   * Skipping the call for an already active shader is safe: from a state in
   * sync, `Use` leaves GL's current program equal to the shader's program.
   */
  lemma UseKeepsSync(st: GlState, shader: ShaderRef)
    requires InSync(st)
    ensures InSync(Use(st, shader))
    ensures var r := Use(st, shader); |r.issued| > 0 && r.issued[|r.issued| - 1] == shader.program
  {
  }

  lemma UseIdempotent(st: GlState, shader: ShaderRef)
    ensures Use(Use(st, shader), shader) == Use(st, shader)
  {
  }

  /** A run of `Use` calls. */
  function UseAll(st: GlState, shaders: seq<ShaderRef>): (r: GlState)
    ensures shaders != [] ==> r.active == Some(shaders[|shaders| - 1])
    ensures shaders == [] ==> r == st
  {
    if shaders == [] then st else Use(UseAll(st, shaders[..|shaders| - 1]), shaders[|shaders| - 1])
  }

  /** The number of times a run of `Use` calls changes the active shader. */
  function Switches(active: Option<ShaderRef>, shaders: seq<ShaderRef>): (n: nat)
    ensures n <= |shaders|
    decreases |shaders|
  {
    if shaders == [] then 0
    else (if active == Some(shaders[0]) then 0 else 1) + Switches(Some(shaders[0]), shaders[1..])
  }

  /** A run of `Use` calls issues one `glUseProgram` per change of active shader, and no more. */
  lemma {:induction false} UseAllIssues(st: GlState, shaders: seq<ShaderRef>)
    ensures |UseAll(st, shaders).issued| == |st.issued| + Switches(st.active, shaders)
    ensures st.issued <= UseAll(st, shaders).issued
    decreases |shaders|
  {
    if shaders != [] {
      UseAllFirst(st, shaders);
      UseAllIssues(Use(st, shaders[0]), shaders[1..]);
    }
  }

  /** Running a sequence of `Use` calls is running the first, then the rest. */
  lemma {:induction false} UseAllFirst(st: GlState, shaders: seq<ShaderRef>)
    requires shaders != []
    ensures UseAll(st, shaders) == UseAll(Use(st, shaders[0]), shaders[1..])
    decreases |shaders|
  {
    if |shaders| > 1 {
      var init := shaders[..|shaders| - 1];
      UseAllFirst(st, init);
      assert init[1..] == shaders[1..][..|shaders[1..]| - 1];
      assert init[0] == shaders[0];
    }
  }
}
