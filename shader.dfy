/**
 * The shader program's two pieces of host-side logic: splitting a combined
 * source file into its vertex and fragment stages, and the lazy cache of
 * uniform locations.
 */
module Shaders {

  // ---------------------------------------------------------------------
  // Substring search
  // ---------------------------------------------------------------------

  /** Whether `pattern` occurs in `s` (the program's `s.find(pattern) != npos`). */
  function Contains(s: string, pattern: string): bool
    decreases |s|
  {
    if |pattern| > |s| then false
    else s[..|pattern|] == pattern || Contains(s[1..], pattern)
  }

  /** `pattern` occurs in `s` starting at position k. */
  predicate OccursAt(s: string, pattern: string, k: nat) {
    k + |pattern| <= |s| && s[k..k + |pattern|] == pattern
  }

  /** Contains finds exactly the positions where the pattern occurs. */
  lemma {:induction false} ContainsIff(s: string, pattern: string)
    ensures Contains(s, pattern) <==> exists k: nat :: OccursAt(s, pattern, k)
    decreases |s|
  {
    var p := pattern;
    if |p| > |s| {
    } else if s[..|p|] == p {
      assert OccursAt(s, p, 0);
    } else {
      ContainsIff(s[1..], p);
      if Contains(s[1..], p) {
        var k: nat :| OccursAt(s[1..], p, k);
        assert s[k + 1..k + 1 + |p|] == s[1..][k..k + |p|];
        assert OccursAt(s, p, k + 1);
      }
      if exists k: nat :: OccursAt(s, p, k) {
        var k: nat :| OccursAt(s, p, k);
        assert k != 0;
        assert s[1..][k - 1..k - 1 + |p|] == s[k..k + |p|];
        assert OccursAt(s[1..], p, k - 1);
      }
    }
  }

  // ---------------------------------------------------------------------
  // ParseShader: the reference definition
  // ---------------------------------------------------------------------

  /** Which stage's source the parser is currently appending to. */
  datatype Stage = NoStage | Vertex | Fragment

  datatype ShaderProgramSource = ShaderProgramSource(vertexSource: string, fragmentSource: string)

  /** The parse either succeeds or stops at the first line that would be
      appended before any stage was selected (undefined in the program). */
  datatype ParseResult = Parsed(source: ShaderProgramSource) | StrayLine(index: nat)

  const MarkerKeyword := "#shader"
  const VertexKeyword := "vertex"
  const FragmentKeyword := "fragment"

  predicate IsMarker(line: string) {
    Contains(line, MarkerKeyword)
  }

  /** The stage in effect after reading `line`: a marker naming `vertex`
      selects the vertex stage, checked first, else one naming `fragment`
      selects the fragment stage; any other line leaves the stage alone. */
  function Switch(stage: Stage, line: string): Stage {
    if !IsMarker(line) then stage
    else if Contains(line, VertexKeyword) then Vertex
    else if Contains(line, FragmentKeyword) then Fragment
    else stage
  }

  /** The stage in effect after reading all of `lines`. */
  function ActiveAfter(lines: seq<string>): Stage {
    if lines == [] then NoStage
    else Switch(ActiveAfter(lines[..|lines| - 1]), lines[|lines| - 1])
  }

  /** The non-marker lines that go to `stage`, in input order. */
  function Selected(lines: seq<string>, stage: Stage): seq<string> {
    if lines == [] then []
    else
      var init, last := lines[..|lines| - 1], lines[|lines| - 1];
      Selected(init, stage) + (if !IsMarker(last) && ActiveAfter(init) == stage then [last] else [])
  }

  /** No non-marker line is read while no stage is selected. */
  predicate NoStrayLine(lines: seq<string>) {
    lines == [] ||
    (var init, last := lines[..|lines| - 1], lines[|lines| - 1];
     NoStrayLine(init) && (IsMarker(last) || ActiveAfter(init) != NoStage))
  }

  /** Each line followed by one newline, concatenated in order. */
  function Join(lines: seq<string>): string {
    if lines == [] then "" else lines[0] + "\n" + Join(lines[1..])
  }

  lemma {:induction false} JoinAppend(lines: seq<string>, line: string)
    ensures Join(lines + [line]) == Join(lines) + line + "\n"
  {
    if lines != [] {
      assert (lines + [line])[1..] == lines[1..] + [line];
      JoinAppend(lines[1..], line);
    }
  }

  /** NoStrayLine says of every line what its recursive definition says of
      the last one. */
  lemma {:induction false} NoStrayLineIff(lines: seq<string>)
    ensures NoStrayLine(lines) <==>
            forall i :: 0 <= i < |lines| && !IsMarker(lines[i]) ==> ActiveAfter(lines[..i]) != NoStage
  {
    if lines != [] {
      var init := lines[..|lines| - 1];
      NoStrayLineIff(init);
      assert lines[..|lines| - 1] == init;
      forall i | 0 <= i < |init|
        ensures init[i] == lines[i] && init[..i] == lines[..i]
      {
      }
    }
  }

  // ---------------------------------------------------------------------
  // ParseShader: the method
  // ---------------------------------------------------------------------

  /**
   * Splits the lines of a combined shader file into the vertex and the
   * fragment source. Marker lines switch the stage; every other line is
   * appended, with one newline, to the selected stage's source.
   */
  method ParseShader(lines: seq<string>) returns (r: ParseResult)
    ensures r.Parsed? <==> NoStrayLine(lines)
    ensures r.Parsed? ==>
              r.source.vertexSource == Join(Selected(lines, Vertex)) &&
              r.source.fragmentSource == Join(Selected(lines, Fragment))
    ensures r.StrayLine? ==>
              r.index < |lines| && !IsMarker(lines[r.index]) && ActiveAfter(lines[..r.index]) == NoStage &&
              forall j :: 0 <= j < r.index ==> IsMarker(lines[j])
  {
    var stage := NoStage;
    var vertexSource, fragmentSource := "", "";
    var i := 0;
    while i < |lines|
      invariant 0 <= i <= |lines|
      invariant stage == ActiveAfter(lines[..i])
      invariant vertexSource == Join(Selected(lines[..i], Vertex))
      invariant fragmentSource == Join(Selected(lines[..i], Fragment))
      invariant NoStrayLine(lines[..i])
      invariant stage == NoStage ==> forall j :: 0 <= j < i ==> IsMarker(lines[j])
    {
      var line := lines[i];
      var next := lines[..i + 1];
      assert next[..|next| - 1] == lines[..i] && next[|next| - 1] == line;
      if Contains(line, MarkerKeyword) {
        assert Selected(next, Vertex) == Selected(lines[..i], Vertex);
        assert Selected(next, Fragment) == Selected(lines[..i], Fragment);
        if Contains(line, VertexKeyword) {
          stage := Vertex;
        } else if Contains(line, FragmentKeyword) {
          stage := Fragment;
        }
      } else if stage == NoStage {
        NoStrayLineIff(lines);
        return StrayLine(i);
      } else if stage == Vertex {
        JoinAppend(Selected(lines[..i], Vertex), line);
        assert Selected(next, Vertex) == Selected(lines[..i], Vertex) + [line];
        assert Selected(next, Fragment) == Selected(lines[..i], Fragment);
        vertexSource := vertexSource + line + "\n";
      } else {
        JoinAppend(Selected(lines[..i], Fragment), line);
        assert Selected(next, Vertex) == Selected(lines[..i], Vertex);
        assert Selected(next, Fragment) == Selected(lines[..i], Fragment) + [line];
        fragmentSource := fragmentSource + line + "\n";
      }
      i := i + 1;
    }
    assert lines[..i] == lines;
    r := Parsed(ShaderProgramSource(vertexSource, fragmentSource));
  }

  // ---------------------------------------------------------------------
  // Properties of the parse
  // ---------------------------------------------------------------------

  /** A marker line is never copied into either stage's source. */
  lemma {:induction false} MarkersNeverCopied(lines: seq<string>, stage: Stage)
    ensures forall l :: l in Selected(lines, stage) ==> !IsMarker(l)
  {
    if lines != [] {
      MarkersNeverCopied(lines[..|lines| - 1], stage);
    }
  }

  predicate NoMarkers(lines: seq<string>) {
    forall i :: 0 <= i < |lines| ==> !IsMarker(lines[i])
  }

  /** A block of non-marker lines changes no stage and goes, in order,
      entirely to the stage in effect before it. */
  lemma {:induction false} SectionBody(a: seq<string>, b: seq<string>, stage: Stage)
    requires NoMarkers(b)
    ensures ActiveAfter(a + b) == ActiveAfter(a)
    ensures Selected(a + b, stage) == Selected(a, stage) + (if ActiveAfter(a) == stage then b else [])
    ensures NoStrayLine(a + b) <==> NoStrayLine(a) && (b == [] || ActiveAfter(a) != NoStage)
    decreases |b|
  {
    if b == [] {
      assert a + b == a;
    } else {
      var b' := b[..|b| - 1];
      assert (a + b)[..|a + b| - 1] == a + b';
      assert (a + b)[|a + b| - 1] == b[|b| - 1];
      SectionBody(a, b', stage);
      assert b' + [b[|b| - 1]] == b;
    }
  }

  /**
   * What a marker line does to the lines that follow it: after a marker
   * naming `vertex` (even one that also names `fragment`) they go to the
   * vertex source; after one naming only `fragment`, to the fragment
   * source; a marker naming neither is dropped and the stage stays as it was.
   */
  lemma MarkerSelectsStage(a: seq<string>, m: string, b: seq<string>, stage: Stage)
    requires IsMarker(m) && NoMarkers(b)
    ensures var lines := a + [m] + b;
            var goesTo := if Contains(m, VertexKeyword) then Vertex
                          else if Contains(m, FragmentKeyword) then Fragment
                          else ActiveAfter(a);
            Selected(lines, stage) == Selected(a, stage) + (if goesTo == stage then b else []) &&
            ActiveAfter(lines) == goesTo
  {
    var a' := a + [m];
    assert a'[..|a'| - 1] == a;
    SectionBody(a', b, stage);
  }

  /** A marker naming neither keyword can be deleted without changing the parse. */
  lemma NeutralMarkerIsDropped(a: seq<string>, m: string, b: seq<string>, stage: Stage)
    requires IsMarker(m) && !Contains(m, VertexKeyword) && !Contains(m, FragmentKeyword)
    ensures ActiveAfter(a + [m] + b) == ActiveAfter(a + b)
    ensures Selected(a + [m] + b, stage) == Selected(a + b, stage)
    ensures NoStrayLine(a + [m] + b) <==> NoStrayLine(a + b)
    decreases |b|
  {
    if b == [] {
      var a' := a + [m];
      assert a'[..|a'| - 1] == a;
      assert a + b == a && a' + b == a';
    } else {
      var b' := b[..|b| - 1];
      assert (a + [m] + b)[..|a + [m] + b| - 1] == a + [m] + b';
      assert (a + b)[..|a + b| - 1] == a + b';
      assert (a + [m] + b)[|a + [m] + b| - 1] == b[|b| - 1] == (a + b)[|a + b| - 1];
      NeutralMarkerIsDropped(a, m, b', stage);
    }
  }

  /**
   * A file made of a vertex marker, N source lines, a fragment marker and
   * M source lines parses to exactly those N lines and those M lines. With
   * M = 0 the fragment source is the empty string.
   */
  lemma TwoSections(vm: string, vs: seq<string>, fm: string, fs: seq<string>)
    requires IsMarker(vm) && Contains(vm, VertexKeyword)
    requires IsMarker(fm) && !Contains(fm, VertexKeyword) && Contains(fm, FragmentKeyword)
    requires NoMarkers(vs) && NoMarkers(fs)
    ensures var lines := [vm] + vs + [fm] + fs;
            NoStrayLine(lines) &&
            Join(Selected(lines, Vertex)) == Join(vs) &&
            Join(Selected(lines, Fragment)) == Join(fs)
  {
    var p1 := [vm];
    var p2 := p1 + vs;
    var p3 := p2 + [fm];
    var lines := [vm] + vs + [fm] + fs;
    assert lines == p3 + fs;
    LeadingMarker(vm);
    assert ActiveAfter(p2) == Vertex && NoStrayLine(p2) && Selected(p2, Vertex) == vs && Selected(p2, Fragment) == [] by {
      SectionBody(p1, vs, Vertex);
      SectionBody(p1, vs, Fragment);
    }
    assert ActiveAfter(p3) == Fragment && NoStrayLine(p3) && Selected(p3, Vertex) == vs && Selected(p3, Fragment) == [] by {
      assert p3[..|p3| - 1] == p2 && p3[|p3| - 1] == fm;
    }
    SectionBody(p3, fs, Vertex);
    SectionBody(p3, fs, Fragment);
    assert Selected(lines, Vertex) == vs + [] == vs;
    assert Selected(lines, Fragment) == [] + fs == fs;
  }

  /** The same, with the markers the demo's shader file uses. */
  lemma DemoShaderFile(vs: seq<string>, fs: seq<string>)
    requires NoMarkers(vs) && NoMarkers(fs)
    ensures var lines := ["#shader vertex"] + vs + ["#shader fragment"] + fs;
            NoStrayLine(lines) &&
            Join(Selected(lines, Vertex)) == Join(vs) &&
            Join(Selected(lines, Fragment)) == Join(fs)
  {
    VertexMarker();
    FragmentMarker();
    TwoSections("#shader vertex", vs, "#shader fragment", fs);
  }

  /** A file's first line, when it is a marker, copies nothing and selects its stage. */
  lemma LeadingMarker(m: string)
    requires IsMarker(m)
    ensures ActiveAfter([m]) == Switch(NoStage, m) && NoStrayLine([m])
    ensures Selected([m], Vertex) == [] && Selected([m], Fragment) == []
  {
  }

  /** A pattern found at some position is contained. */
  lemma OccursAtContains(s: string, pattern: string, k: nat)
    requires OccursAt(s, pattern, k)
    ensures Contains(s, pattern)
  {
    ContainsIff(s, pattern);
  }

  /** A pattern whose first character does not occur in `s` is not contained in it. */
  lemma {:induction false} FirstCharAbsent(s: string, pattern: string)
    requires |pattern| > 0 && forall k :: 0 <= k < |s| ==> s[k] != pattern[0]
    ensures !Contains(s, pattern)
    decreases |s|
  {
    if |pattern| <= |s| {
      assert s[..|pattern|][0] == s[0];
      FirstCharAbsent(s[1..], pattern);
    }
  }

  /** The demo's vertex marker, `#shader vertex`, selects the vertex stage. */
  lemma VertexMarker()
    ensures IsMarker("#shader vertex") && Contains("#shader vertex", VertexKeyword)
  {
  }

  /** The demo's fragment marker, `#shader fragment`, selects the fragment stage. */
  lemma FragmentMarker()
    ensures IsMarker("#shader fragment") && Contains("#shader fragment", FragmentKeyword)
    ensures !Contains("#shader fragment", VertexKeyword)
  {
    var f := "#shader fragment";
    assert f[..7] == MarkerKeyword;
    OccursAtContains(f, MarkerKeyword, 0);
    assert f[8..16] == FragmentKeyword;
    OccursAtContains(f, FragmentKeyword, 8);
    forall k | 0 <= k < |f| ensures f[k] != 'v' {
    }
    FirstCharAbsent(f, VertexKeyword);
  }

  // ---------------------------------------------------------------------
  // Uniform location cache
  // ---------------------------------------------------------------------

  /** What a lookup makes visible besides its result: a query to the driver
      and the warning printed when the uniform does not exist. */
  datatype CacheEvent = DriverQuery(name: string) | MissingUniformWarning(name: string)

  /** The location the driver reports for a uniform that does not exist. */
  const NotFound: int := -1

  datatype LookupOutcome = LookupOutcome(location: int, cache: map<string, int>, events: seq<CacheEvent>)

  /** Every cached location is the one the driver reports. */
  ghost predicate Consistent(cache: map<string, int>, table: string -> int) {
    forall n :: n in cache ==> cache[n] == table(n)
  }

  /** One lookup against `cache`, with `table` answering driver queries. */
  function LookupUniform(cache: map<string, int>, table: string -> int, name: string): (r: LookupOutcome)
    ensures Consistent(cache, table) ==> r.location == table(name) && Consistent(r.cache, table)
    ensures r.cache.Keys == cache.Keys + {name}
    ensures name in cache <==> r.events == []
  {
    if name in cache then LookupOutcome(cache[name], cache, [])
    else
      var location := table(name);
      LookupOutcome(location, cache[name := location],
                    [DriverQuery(name)] + (if location == NotFound then [MissingUniformWarning(name)] else []))
  }

  /** The results of several lookups: one location per name, the final
      cache, and all events in order. */
  datatype LookupsOutcome = LookupsOutcome(locations: seq<int>, cache: map<string, int>, events: seq<CacheEvent>)

  /** A sequence of lookups, in order, threading the cache through. */
  function LookupAll(cache: map<string, int>, table: string -> int, names: seq<string>): (r: LookupsOutcome)
    decreases |names|
  {
    if names == [] then LookupsOutcome([], cache, [])
    else
      var first := LookupUniform(cache, table, names[0]);
      var rest := LookupAll(first.cache, table, names[1..]);
      LookupsOutcome([first.location] + rest.locations, rest.cache, first.events + rest.events)
  }

  /** The names the driver was queried for, in order. */
  function Queries(events: seq<CacheEvent>): seq<string> {
    if events == [] then []
    else (if events[0].DriverQuery? then [events[0].name] else []) + Queries(events[1..])
  }

  /** The names a missing-uniform warning was printed for, in order. */
  function Warnings(events: seq<CacheEvent>): seq<string> {
    if events == [] then []
    else (if events[0].MissingUniformWarning? then [events[0].name] else []) + Warnings(events[1..])
  }

  lemma {:induction false} EventsConcat(a: seq<CacheEvent>, b: seq<CacheEvent>)
    ensures Queries(a + b) == Queries(a) + Queries(b)
    ensures Warnings(a + b) == Warnings(a) + Warnings(b)
  {
    if a != [] {
      assert (a + b)[0] == a[0] && (a + b)[1..] == a[1..] + b;
      EventsConcat(a[1..], b);
    } else {
      assert a + b == b;
    }
  }

  /** No name occurs twice. */
  predicate Distinct(names: seq<string>) {
    forall i, j :: 0 <= i < j < |names| ==> names[i] != names[j]
  }

  lemma DistinctConcat(a: seq<string>, b: seq<string>)
    requires Distinct(a) && Distinct(b) && forall n :: n in a ==> n !in b
    ensures Distinct(a + b)
  {
    forall i, j | 0 <= i < j < |a + b| ensures (a + b)[i] != (a + b)[j] {
      if i < |a| && j >= |a| {
        assert (a + b)[i] in a && (a + b)[j] in b;
      }
    }
  }

  /** The queries and warnings of a single lookup. */
  lemma LookupEvents(cache: map<string, int>, table: string -> int, name: string)
    ensures var r := LookupUniform(cache, table, name);
            Queries(r.events) == (if name in cache then [] else [name]) &&
            Warnings(r.events) == (if name !in cache && table(name) == NotFound then [name] else [])
  {
    if name !in cache {
      var w := if table(name) == NotFound then [MissingUniformWarning(name)] else [];
      EventsConcat([DriverQuery(name)], w);
    }
  }

  /**
   * Over any sequence of lookups, the driver is queried exactly for the
   * names that were not cached at the start, each of them once, and the
   * cache gains exactly the names looked up.
   */
  lemma {:induction false} EachNameQueriedOnce(cache: map<string, int>, table: string -> int, names: seq<string>)
    ensures var r := LookupAll(cache, table, names);
            (forall n :: n in Queries(r.events) <==> n in names && n !in cache) &&
            Distinct(Queries(r.events)) &&
            r.cache.Keys == cache.Keys + (set n | n in names)
    decreases |names|
  {
    if names != [] {
      var name := names[0];
      var first := LookupUniform(cache, table, name);
      var rest := LookupAll(first.cache, table, names[1..]);
      EachNameQueriedOnce(first.cache, table, names[1..]);
      EventsConcat(first.events, rest.events);
      LookupEvents(cache, table, name);
      assert forall n :: n in names <==> n == name || n in names[1..];
      DistinctConcat(Queries(first.events), Queries(rest.events));
    }
  }

  /**
   * Over any sequence of lookups, a warning is printed exactly for the
   * queried names that do not exist, each of them once, however often it
   * is looked up.
   */
  lemma {:induction false} EachMissingNameWarnedOnce(cache: map<string, int>, table: string -> int, names: seq<string>)
    ensures var r := LookupAll(cache, table, names);
            (forall n :: n in Warnings(r.events) <==> n in names && n !in cache && table(n) == NotFound) &&
            Distinct(Warnings(r.events))
    decreases |names|
  {
    if names != [] {
      var name := names[0];
      var first := LookupUniform(cache, table, name);
      var rest := LookupAll(first.cache, table, names[1..]);
      EachMissingNameWarnedOnce(first.cache, table, names[1..]);
      EventsConcat(first.events, rest.events);
      LookupEvents(cache, table, name);
      assert forall n :: n in names <==> n == name || n in names[1..];
      DistinctConcat(Warnings(first.events), Warnings(rest.events));
    }
  }

  /** Against a cache consistent with the driver, every lookup in a
      sequence returns the driver's location for its name. */
  lemma {:induction false} LookupAllLocations(cache: map<string, int>, table: string -> int, names: seq<string>)
    requires Consistent(cache, table)
    ensures var r := LookupAll(cache, table, names);
            |r.locations| == |names| &&
            (forall i :: 0 <= i < |names| ==> r.locations[i] == table(names[i])) &&
            Consistent(r.cache, table)
    decreases |names|
  {
    if names != [] {
      var first := LookupUniform(cache, table, names[0]);
      LookupAllLocations(first.cache, table, names[1..]);
      var r := LookupAll(cache, table, names);
      forall i | 0 <= i < |names| ensures r.locations[i] == table(names[i]) {
        if i > 0 {
          assert names[1..][i - 1] == names[i];
        }
      }
    }
  }

  /** Looking the same name up twice queries the driver once, and warns at
      most once, and both lookups return the driver's location. */
  lemma SameNameTwice(cache: map<string, int>, table: string -> int, name: string)
    requires Consistent(cache, table)
    ensures var first := LookupUniform(cache, table, name);
            var second := LookupUniform(first.cache, table, name);
            first.location == second.location == table(name) &&
            |Queries(first.events + second.events)| == (if name in cache then 0 else 1) &&
            |Warnings(first.events + second.events)| == (if name !in cache && table(name) == NotFound then 1 else 0)
  {
    var first := LookupUniform(cache, table, name);
    var second := LookupUniform(first.cache, table, name);
    assert second.events == [];
    assert first.events + second.events == first.events;
    if name !in cache {
      var w := if table(name) == NotFound then [MissingUniformWarning(name)] else [];
      EventsConcat([DriverQuery(name)], w);
    }
  }

  /**
   * The shader program object. Only its uniform location lookup is
   * modelled; `uniformTable` stands for the driver's answer to
   * glGetUniformLocation for this linked program.
   */
  class Shader {
    const rendererId: nat
    const uniformTable: string -> int
    var uniformLocationCache: map<string, int>

    ghost predicate Valid()
      reads this
    {
      Consistent(uniformLocationCache, uniformTable)
    }

    constructor (rendererId: nat, uniformTable: string -> int)
      ensures Valid()
      ensures this.rendererId == rendererId && this.uniformTable == uniformTable
      ensures uniformLocationCache == map[]
    {
      this.rendererId := rendererId;
      this.uniformTable := uniformTable;
      uniformLocationCache := map[];
    }

    /**
     * The location of uniform `name`. A cached name is answered from the
     * cache without a driver query; otherwise the driver is queried once,
     * a warning is printed if the uniform does not exist, and the answer,
     * the not-found location included, is cached.
     */
    method GetUniformLocation(name: string) returns (location: int, events: seq<CacheEvent>)
      requires Valid()
      modifies this
      ensures Valid()
      ensures location == uniformTable(name)
      ensures name in old(uniformLocationCache) ==>
                location == old(uniformLocationCache)[name] && events == [] &&
                uniformLocationCache == old(uniformLocationCache)
      ensures name !in old(uniformLocationCache) ==>
                uniformLocationCache == old(uniformLocationCache)[name := location] &&
                events == [DriverQuery(name)] + (if location == NotFound then [MissingUniformWarning(name)] else [])
      ensures LookupOutcome(location, uniformLocationCache, events) ==
              LookupUniform(old(uniformLocationCache), uniformTable, name)
    {
      if name in uniformLocationCache {
        return uniformLocationCache[name], [];
      }
      location := uniformTable(name);
      events := [DriverQuery(name)];
      if location == NotFound {
        events := events + [MissingUniformWarning(name)];
      }
      uniformLocationCache := uniformLocationCache[name := location];
    }
  }
}
