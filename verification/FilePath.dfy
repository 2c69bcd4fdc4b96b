/** The path parser and printer (src/kfile_path.c). */
module FilePath {
  predicate IsSeparator(c: char) {
    c == '/' || c == '\\'
  }

  predicate IsComponent(s: string) {
    s != "" && forall i :: 0 <= i < |s| ==> s[i] != '/' && s[i] != '\\'
  }

  predicate AreComponents(parts: seq<string>) {
    forall i :: 0 <= i < |parts| ==> IsComponent(parts[i])
  }

  /** A path as a value: what a `KFilePath` object holds. */
  datatype Path = Path(components: seq<string>, isAbsolute: bool)

  /** The paths that the parser and `AddComponent` can build. */
  predicate Constructible(p: Path) {
    AreComponents(p.components)
  }

  // ----- the reference definitions

  /** The maximal runs of non-separators of `current + s`, where `current` is the run that
      is open at the start of `s`. */
  function Runs(current: string, s: string): seq<string>
    decreases |s|
  {
    if s == "" then Closed(current)
    else if IsSeparator(s[0]) then Closed(current) + Runs("", s[1..])
    else Runs(current + [s[0]], s[1..])
  }

  function Closed(run: string): seq<string> {
    if run == "" then [] else [run]
  }

  predicate StartsWithSeparator(s: string) {
    s != "" && IsSeparator(s[0])
  }

  function Parse(s: string): Path {
    Path(Runs("", s), StartsWithSeparator(s))
  }

  function Join(parts: seq<string>, sep: string): string {
    if parts == [] then ""
    else if |parts| == 1 then parts[0]
    else parts[0] + sep + Join(parts[1..], sep)
  }

  function Print(p: Path, sep: char): string {
    (if p.isAbsolute then [sep] else "") + Join(p.components, [sep])
  }

  /** What is left in `p` by the attempt to add `comp`: an absolute path is refused. */
  function Add(p: Path, comp: Path): Path {
    if comp.isAbsolute then p else p.(components := p.components + comp.components)
  }

  // ----- the objects

  class KFilePath {
    var components: seq<string>
    var isAbsolute: bool

    ghost function Value(): Path
      reads this
    {
      Path(components, isAbsolute)
    }

    /** `KFilePathNewWithString` */
    constructor (buffer: string)
      ensures Value() == Parse(buffer)
    {
      components, isAbsolute := [], false;
      new;
      var start, i := 0, 0;
      while i < |buffer|
        invariant 0 <= start <= i <= |buffer|
        invariant isAbsolute == (i > 0 && IsSeparator(buffer[0]))
        invariant components + Runs(buffer[start..i], buffer[i..]) == Runs("", buffer)
      {
        var separates := IsSeparator(buffer[i]);
        if i == 0 && separates {
          isAbsolute := true;
        }
        assert buffer[i..][1..] == buffer[i + 1..];
        if separates {
          var count := i - start;
          if count > 0 {
            components := components + [buffer[start..i]];
          }
          start := i + 1;
          assert buffer[start..i + 1] == "";
        } else {
          assert buffer[start..i] + [buffer[i]] == buffer[start..i + 1];
        }
        i := i + 1;
      }
      assert buffer[i..] == "" && buffer[start..i] == buffer[start..];
      if start < |buffer| {
        components := components + [buffer[start..]];
      }
    }

    /** A NULL path changes nothing and an absolute one is refused. `comp` may be the path
        itself, whose components are then doubled: their number is read once. */
    method AddComponent(comp: KFilePath?) returns (ok: bool)
      modifies this
      ensures ok <==> comp == null || !old(comp.isAbsolute)
      ensures components == if ok && comp != null then old(components + comp.components) else old(components)
      ensures isAbsolute == old(isAbsolute)
      ensures Value() == if comp != null then old(Add(Value(), comp.Value())) else old(Value())
    {
      if comp == null {
        return true;
      }
      if comp.isAbsolute {
        return false;
      }
      ghost var added := comp.components;
      var i, count := 0, |comp.components|;
      while i < count
        invariant 0 <= i <= count == |added|
        invariant added <= comp.components && isAbsolute == old(isAbsolute)
        invariant components == old(components) + added[..i]
      {
        assert added[..i + 1] == added[..i] + [added[i]];
        components := components + [comp.components[i]];
        i := i + 1;
      }
      return true;
    }

    /** `KFilePathNewStringRepresentationWithSeparator` */
    method StringRepresentation(sep: char) returns (result: string)
      ensures result == Print(Value(), sep)
    {
      result := if isAbsolute then [sep] else "";
      var i, count := 0, |components|;
      while i < count
        invariant 0 <= i <= count
        invariant result + Join(components[i..], [sep]) == Print(Value(), sep)
      {
        result := result + components[i];
        if i != count - 1 {
          result := result + [sep];
        }
        assert components[i..][1..] == components[i + 1..];
        i := i + 1;
      }
    }
  }

  // ----- parsing what was printed

  lemma {:induction false} RunsAreComponents(current: string, s: string)
    requires current == "" || IsComponent(current)
    ensures AreComponents(Runs(current, s))
    decreases |s|
  {
    if s != "" {
      if IsSeparator(s[0]) {
        RunsAreComponents("", s[1..]);
      } else {
        RunsAreComponents(current + [s[0]], s[1..]);
      }
    }
  }

  /** The parser builds constructible paths only, and adding keeps them constructible. */
  lemma ParseIsConstructible(s: string)
    ensures Constructible(Parse(s))
  {
    RunsAreComponents("", s);
  }

  lemma {:induction false} RunsExtend(current: string, part: string, rest: string)
    requires forall i :: 0 <= i < |part| ==> !IsSeparator(part[i])
    ensures Runs(current, part + rest) == Runs(current + part, rest)
    decreases |part|
  {
    if part == "" {
      assert part + rest == rest && current + part == current;
    } else {
      assert (part + rest)[1..] == part[1..] + rest;
      assert current + [part[0]] + part[1..] == current + part;
      RunsExtend(current + [part[0]], part[1..], rest);
    }
  }

  lemma {:induction false} RunsOfJoin(parts: seq<string>, sep: char)
    requires AreComponents(parts) && IsSeparator(sep)
    ensures Runs("", Join(parts, [sep])) == parts
  {
    if |parts| == 1 {
      RunsExtend("", parts[0], "");
      assert parts[0] + "" == parts[0] && "" + parts[0] == parts[0];
    } else if |parts| > 1 {
      var rest := Join(parts[1..], [sep]);
      assert Join(parts, [sep]) == parts[0] + ([sep] + rest);
      RunsExtend("", parts[0], [sep] + rest);
      assert "" + parts[0] == parts[0];
      assert ([sep] + rest)[1..] == rest;
      RunsOfJoin(parts[1..], sep);
    }
  }

  lemma JoinStarts(parts: seq<string>, sep: string)
    requires AreComponents(parts)
    ensures !StartsWithSeparator(Join(parts, sep))
  {
    if parts != [] {
      assert IsComponent(parts[0]);
      assert Join(parts, sep)[0] == parts[0][0];
    }
  }

  /** Printing with either separator loses nothing. */
  lemma PrintThenParse(p: Path, sep: char)
    requires Constructible(p) && (sep == '/' || sep == '\\')
    ensures Parse(Print(p, sep)) == p
  {
    var body := Join(p.components, [sep]);
    RunsOfJoin(p.components, sep);
    if p.isAbsolute {
      assert ([sep] + body)[1..] == body;
    } else {
      assert "" + body == body;
      JoinStarts(p.components, [sep]);
    }
  }

  /** The one text in the other with `sep` in place of '/'. */
  ghost predicate Respelled(text: string, slashed: string, sep: char) {
    && |text| == |slashed|
    && forall i :: 0 <= i < |text| ==> text[i] == if slashed[i] == '/' then sep else slashed[i]
  }

  lemma {:induction false} JoinRespelled(parts: seq<string>, sep: char)
    requires AreComponents(parts)
    ensures Respelled(Join(parts, [sep]), Join(parts, "/"), sep)
  {
    if |parts| > 1 {
      JoinRespelled(parts[1..], sep);
    }
  }

  /** Whatever the separator asked for, it stands exactly where '/' would, and nothing else
      changes. */
  lemma PrintUsesSeparator(p: Path, sep: char)
    requires Constructible(p)
    ensures Respelled(Print(p, sep), Print(p, '/'), sep)
  {
    JoinRespelled(p.components, sep);
  }

  /** Normalising a path string twice is normalising it once. */
  lemma NormaliseIsIdempotent(s: string, sep: char)
    requires IsSeparator(sep)
    ensures Print(Parse(Print(Parse(s), sep)), sep) == Print(Parse(s), sep)
  {
    ParseIsConstructible(s);
    PrintThenParse(Parse(s), sep);
  }

  /** Two strings print alike exactly when they parse to the same path. */
  lemma PrintIsCanonical(s: string, t: string, sep: char)
    requires IsSeparator(sep)
    ensures Print(Parse(s), sep) == Print(Parse(t), sep) <==> Parse(s) == Parse(t)
  {
    ParseIsConstructible(s);
    ParseIsConstructible(t);
    PrintThenParse(Parse(s), sep);
    PrintThenParse(Parse(t), sep);
  }

  // ----- printing never lengthens

  lemma {:induction false} JoinLength(parts: seq<string>, more: seq<string>, sep: string)
    requires |sep| == 1
    ensures |Join(parts + more, sep)| ==
            |Join(parts, sep)| + |Join(more, sep)| + (if parts != [] && more != [] then 1 else 0)
  {
    if parts == [] {
      assert parts + more == more;
    } else {
      assert (parts + more)[1..] == parts[1..] + more;
      JoinLength(parts[1..], more, sep);
    }
  }

  lemma {:induction false} JoinRunsLength(current: string, s: string, sep: string)
    requires |sep| == 1
    ensures |Join(Runs(current, s), sep)| <= |current| + |s|
    ensures StartsWithSeparator(s) && current == "" ==> |Join(Runs(current, s), sep)| + 1 <= |s|
    decreases |s|
  {
    if s != "" {
      if IsSeparator(s[0]) {
        JoinRunsLength("", s[1..], sep);
        JoinLength(Closed(current), Runs("", s[1..]), sep);
      } else {
        JoinRunsLength(current + [s[0]], s[1..], sep);
      }
    }
  }

  lemma NormaliseNeverLengthens(s: string, sep: char)
    ensures |Print(Parse(s), sep)| <= |s|
  {
    JoinRunsLength("", s, [sep]);
  }

  // ----- adding a component is appending text

  lemma {:induction false} RunsOfConcat(current: string, s: string, sep: char, t: string)
    requires IsSeparator(sep)
    ensures Runs(current, s + [sep] + t) == Runs(current, s) + Runs("", t)
    decreases |s|
  {
    var all := s + [sep] + t;
    if s == "" {
      assert all[0] == sep && all[1..] == t;
    } else {
      assert all[0] == s[0] && all[1..] == s[1..] + [sep] + t;
      if IsSeparator(s[0]) {
        RunsOfConcat("", s[1..], sep, t);
      } else {
        RunsOfConcat(current + [s[0]], s[1..], sep, t);
      }
    }
  }

  predicate OnlySeparators(s: string) {
    forall i :: 0 <= i < |s| ==> IsSeparator(s[i])
  }

  lemma {:induction false} NoRuns(current: string, s: string)
    ensures Runs(current, s) == [] <==> current == "" && OnlySeparators(s)
    decreases |s|
  {
    if s != "" {
      NoRuns(if IsSeparator(s[0]) then "" else current + [s[0]], s[1..]);
      assert forall i :: 0 < i < |s| ==> s[i] == s[1..][i - 1];
      assert OnlySeparators(s) <==> IsSeparator(s[0]) && OnlySeparators(s[1..]);
    }
  }

  /** Adding a path agrees with appending its text behind a separator if and only if there
      is something to append to, which would turn absolute otherwise, and the path is not
      absolute, which is refused, unless it has no component to lose. */
  lemma AddIsConcat(s: string, sep: char, t: string)
    requires IsSeparator(sep)
    ensures Add(Parse(s), Parse(t)) == Parse(s + [sep] + t) <==>
            s != "" && (!StartsWithSeparator(t) || OnlySeparators(t))
  {
    RunsOfConcat("", s, sep, t);
    NoRuns("", t);
    assert (s + [sep] + t)[0] == if s == "" then sep else s[0];
    assert Runs("", s) + Runs("", t) == Runs("", s) <==> Runs("", t) == [];
  }
}
