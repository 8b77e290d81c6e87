/** Templates: a text is cut into literals and variables, and rendered with
    the values of a worker. */
module Template {
  import opened Options
  import opened Variables
  import opened Iteration
  import opened PlanDefinition

  // ----- delimiters

  predicate PairAt(s: string, c: char, i: int) {
    0 <= i && i + 1 < |s| && s[i] == c && s[i + 1] == c
  }

  /** Where the delimiter cc first stands, or -1. */
  function IndexPair(s: string, c: char, from: nat): (r: int)
    ensures r < 0 ==> r == -1 && forall j | from <= j :: !PairAt(s, c, j)
    ensures r >= 0 ==> from <= r && PairAt(s, c, r) && forall j | from <= j < r :: !PairAt(s, c, j)
    decreases |s| - from
  {
    if from + 1 >= |s| then -1
    else if PairAt(s, c, from) then from
    else IndexPair(s, c, from + 1)
  }

  predicate NameStart(c: char) {
    c == '_' || 'a' <= c <= 'z' || 'A' <= c <= 'Z'
  }

  predicate ValidName(name: string) {
    && name != "" && NameStart(name[0])
    && forall i | 0 < i < |name| :: NameStart(name[i]) || name[i] == '-' || name[i] == '.' || '0' <= name[i] <= '9'
  }

  // ----- what a template is

  /** A literal, and what stands between the delimiters that follow it. */
  datatype Part = Part(literal: string, raw: string)

  predicate NoPair(s: string, c: char) {
    forall j | 0 <= j < |s| :: !PairAt(s, c, j)
  }

  predicate EndsWith(s: string, c: char) {
    s != "" && s[|s| - 1] == c
  }

  predicate ProperPart(part: Part) {
    && NoPair(part.literal, '{') && !EndsWith(part.literal, '{') && NoPair(part.literal, '}')
    && NoPair(part.raw, '}') && !EndsWith(part.raw, '}') && ValidName(TrimSpace(part.raw))
  }

  predicate Proper(parts: seq<Part>, tail: string) {
    && (forall i | 0 <= i < |parts| :: ProperPart(parts[i]))
    && NoPair(tail, '{') && NoPair(tail, '}')
  }

  function Written(part: Part): string {
    part.literal + "{{" + part.raw + "}}"
  }

  function Source(parts: seq<Part>, tail: string): string {
    if parts == [] then tail else Written(parts[0]) + Source(parts[1..], tail)
  }

  /** What stands at the beginning of a text: no delimiters at all, a part, or
      delimiters that do not match. */
  datatype Cut = Plain | Broken | First(part: Part, length: nat)

  function FirstCut(s: string): (r: Cut)
    ensures r.First? ==> 4 <= r.length <= |s|
  {
    var open, close := IndexPair(s, '{', 0), IndexPair(s, '}', 0);
    if open < 0 then if close >= 0 then Broken else Plain
    else if 0 <= close < open then Broken
    else
      var end := IndexPair(s, '}', open + 2);
      if end < 0 || !ValidName(TrimSpace(s[open + 2..end])) then Broken
      else First(Part(s[..open], s[open + 2..end]), end + 2)
  }

  // ----- cutting and putting together

  lemma CutIsProper(s: string)
    requires FirstCut(s).First?
    ensures ProperPart(FirstCut(s).part)
  {
    var open := IndexPair(s, '{', 0);
    var end := IndexPair(s, '}', open + 2);
    var literal, raw := s[..open], s[open + 2..end];
    forall j | 0 <= j < |literal|
      ensures !PairAt(literal, '{', j) && !PairAt(literal, '}', j)
    {
      assert !PairAt(s, '{', j);
      assert !PairAt(s, '}', j);
    }
    assert s[open] == '{' && (open > 0 ==> !PairAt(s, '{', open - 1));
    forall j | 0 <= j < |raw|
      ensures !PairAt(raw, '}', j)
    {
      assert !PairAt(s, '}', open + 2 + j);
    }
    assert s[end] == '}' && (end > open + 2 ==> !PairAt(s, '}', end - 1));
  }

  lemma CutRebuilds(s: string)
    requires FirstCut(s).First?
    ensures s == Written(FirstCut(s).part) + s[FirstCut(s).length..]
  {
    var open := IndexPair(s, '{', 0);
    var end := IndexPair(s, '}', open + 2);
    assert s[open..open + 2] == "{{";
    assert s[end..end + 2] == "}}";
    assert s == s[..open] + s[open..open + 2] + s[open + 2..end] + s[end..end + 2] + s[end + 2..];
  }

  lemma PlainIsProper(s: string)
    ensures FirstCut(s) == Plain <==> NoPair(s, '{') && NoPair(s, '}')
  {
    var open, close := IndexPair(s, '{', 0), IndexPair(s, '}', 0);
    assert open >= 0 ==> PairAt(s, '{', open);
    assert close >= 0 ==> PairAt(s, '}', close);
  }

  lemma FirstPair(s: string, c: char, from: nat, i: nat)
    requires from <= i && PairAt(s, c, i) && forall j | from <= j < i :: !PairAt(s, c, j)
    ensures IndexPair(s, c, from) == i
  {
    var r := IndexPair(s, c, from);
    assert r < i ==> r < 0;
  }

  /** No delimiter stands in a literal that is followed by an opening one. */
  lemma NoneInLiteral(part: Part, rest: string, j: nat)
    requires ProperPart(part) && j < |part.literal|
    ensures !PairAt(Written(part) + rest, '{', j) && !PairAt(Written(part) + rest, '}', j)
  {
    var s := Written(part) + rest;
    assert s[j] == part.literal[j];
    if j + 1 < |part.literal| {
      assert s[j + 1] == part.literal[j + 1];
      assert !PairAt(part.literal, '{', j) && !PairAt(part.literal, '}', j);
    } else {
      assert s[j + 1] == '{';
    }
  }

  lemma NoneInRaw(part: Part, rest: string, k: nat)
    requires ProperPart(part) && k < |part.raw|
    ensures !PairAt(Written(part) + rest, '}', |part.literal| + 2 + k)
  {
    var s, j := Written(part) + rest, |part.literal| + 2 + k;
    assert s[j] == part.raw[k];
    if k + 1 < |part.raw| {
      assert s[j + 1] == part.raw[k + 1];
      assert !PairAt(part.raw, '}', k);
    }
  }

  /** A proper part is what is cut from a text that begins with it. */
  lemma PartIsCut(part: Part, rest: string)
    requires ProperPart(part)
    ensures FirstCut(Written(part) + rest) == First(part, |Written(part)|)
    ensures (Written(part) + rest)[|Written(part)|..] == rest
  {
    var s := Written(part) + rest;
    var open, end := |part.literal|, |part.literal| + 2 + |part.raw|;
    assert s[..open] == part.literal && s[open + 2..end] == part.raw;
    forall j | 0 <= j < open
      ensures !PairAt(s, '{', j) && !PairAt(s, '}', j)
    {
      NoneInLiteral(part, rest, j);
    }
    forall j | open + 2 <= j < end
      ensures !PairAt(s, '}', j)
    {
      NoneInRaw(part, rest, j - open - 2);
    }
    assert PairAt(s, '{', open) && PairAt(s, '}', end);
    FirstPair(s, '{', 0, open);
    FirstPair(s, '}', open + 2, end);
  }

  /** A text without delimiters has no parts. */
  lemma PlainHasNoParts(s: string, parts: seq<Part>, tail: string)
    requires Proper([], s) && Proper(parts, tail) && Source(parts, tail) == s
    ensures parts == [] && tail == s
  {
    PlainIsProper(s);
    if parts != [] {
      PartIsCut(parts[0], Source(parts[1..], tail));
    }
  }

  /** A text is made of proper parts in one way at most. */
  lemma {:induction false} PartsAreUnique(a: seq<Part>, s: string, b: seq<Part>, t: string)
    requires Proper(a, s) && Proper(b, t) && Source(a, s) == Source(b, t)
    ensures a == b && s == t
    decreases |a|
  {
    if a == [] {
      PlainHasNoParts(s, b, t);
    } else if b == [] {
      PlainHasNoParts(t, a, s);
    } else {
      PartIsCut(a[0], Source(a[1..], s));
      PartIsCut(b[0], Source(b[1..], t));
      PartsAreUnique(a[1..], s, b[1..], t);
      assert a == [a[0]] + a[1..] && b == [b[0]] + b[1..];
    }
  }

  ghost predicate IsTemplate(value: string, parts: seq<Part>, tail: string) {
    Proper(parts, tail) && Source(parts, tail) == value
  }

  /** No proper parts make up the text. */
  ghost predicate Hopeless(value: string) {
    forall parts, tail :: !IsTemplate(value, parts, tail)
  }

  lemma BrokenIsHopeless(s: string)
    requires FirstCut(s) == Broken
    ensures Hopeless(s)
  {
    forall parts, tail
      ensures !IsTemplate(s, parts, tail)
    {
      if IsTemplate(s, parts, tail) {
        if parts == [] {
          PlainIsProper(s);
        } else {
          PartIsCut(parts[0], Source(parts[1..], tail));
        }
      }
    }
  }

  /** What follows the first part is a template of its own. */
  lemma RestIsTemplate(part: Part, rest: string, parts: seq<Part>, tail: string)
    requires ProperPart(part) && IsTemplate(Written(part) + rest, parts, tail)
    ensures parts != [] && IsTemplate(rest, parts[1..], tail)
  {
    PartIsCut(part, rest);
    if parts == [] {
      PlainIsProper(tail);
    } else {
      PartIsCut(parts[0], Source(parts[1..], tail));
    }
  }

  lemma HopelessAfter(part: Part, rest: string)
    requires ProperPart(part) && Hopeless(rest)
    ensures Hopeless(Written(part) + rest)
  {
    forall parts, tail
      ensures !IsTemplate(Written(part) + rest, parts, tail)
    {
      if IsTemplate(Written(part) + rest, parts, tail) {
        RestIsTemplate(part, rest, parts, tail);
      }
    }
  }

  lemma {:induction false} HopelessBehind(parts: seq<Part>, rest: string)
    requires (forall i | 0 <= i < |parts| :: ProperPart(parts[i])) && Hopeless(rest)
    ensures Hopeless(Source(parts, rest))
  {
    if parts != [] {
      HopelessBehind(parts[1..], rest);
      HopelessAfter(parts[0], Source(parts[1..], rest));
    }
  }

  lemma {:induction false} SourceMoves(parts: seq<Part>, part: Part, rest: string)
    ensures Source(parts + [part], rest) == Source(parts, Written(part) + rest)
  {
    if parts == [] {
      assert [part][1..] == [];
    } else {
      SourceMoves(parts[1..], part, rest);
      assert (parts + [part])[1..] == parts[1..] + [part];
    }
  }

  // ----- the compiled template

  /** A segment without a variable is the literal at the end. */
  datatype Segment = Segment(literal: string, variable: string)

  function Segments(parts: seq<Part>): (r: seq<Segment>)
    ensures |r| == |parts|
  {
    seq(|parts|, i requires 0 <= i < |parts| => Segment(parts[i].literal, TrimSpace(parts[i].raw)))
  }

  /** A text without variables has no segments at all. */
  function CompiledSegments(parts: seq<Part>, tail: string): seq<Segment> {
    Segments(parts) + if parts != [] && tail != "" then [Segment(tail, "")] else []
  }

  /** The variables, each once, in the order of their first use. */
  function Names(parts: seq<Part>): (r: seq<string>) {
    if parts == [] then []
    else
      var names, name := Names(parts[..|parts| - 1]), TrimSpace(parts[|parts| - 1].raw);
      if name in names then names else names + [name]
  }

  datatype CompileResult = Compiled(segments: seq<Segment>, names: seq<string>) | Invalid

  lemma Longer(parts: seq<Part>, part: Part)
    ensures Segments(parts + [part]) == Segments(parts) + [Segment(part.literal, TrimSpace(part.raw))]
    ensures Names(parts + [part])
         == if TrimSpace(part.raw) in Names(parts) then Names(parts) else Names(parts) + [TrimSpace(part.raw)]
  {
    assert (parts + [part])[..|parts|] == parts;
  }

  method NextPart(remaining: string) returns (cut: Cut)
    ensures cut.First? ==> ProperPart(cut.part) && 4 <= cut.length <= |remaining|
                           && remaining == Written(cut.part) + remaining[cut.length..]
    ensures cut.Plain? ==> NoPair(remaining, '{') && NoPair(remaining, '}')
    ensures cut.Broken? ==> Hopeless(remaining)
  {
    cut := CutNext(remaining);
    if cut.First? {
      CutIsProper(remaining);
      CutRebuilds(remaining);
    }
    PlainIsProper(remaining);
    if cut.Broken? {
      BrokenIsHopeless(remaining);
    }
  }

  method CutNext(remaining: string) returns (cut: Cut)
    ensures cut == FirstCut(remaining)
  {
    var startOffset := IndexPair(remaining, '{', 0);
    var unexpectedClose := IndexPair(remaining, '}', 0);
    if startOffset < 0 {
      return if unexpectedClose >= 0 then Broken else Plain;
    }
    if unexpectedClose >= 0 && unexpectedClose < startOffset {
      return Broken;
    }
    var endOffset := IndexPair(remaining, '}', startOffset + 2);
    if endOffset < 0 {
      return Broken;
    }
    var raw := remaining[startOffset + 2..endOffset];
    if !ValidName(TrimSpace(raw)) {
      return Broken;
    }
    return First(Part(remaining[..startOffset], raw), endOffset + 2);
  }

  function AddName(names: seq<string>, name: string): seq<string> {
    if name in names then names else names + [name]
  }

  /** The parts read so far, and what is left of the text. */
  ghost predicate ReadSoFar(value: string, parts: seq<Part>, rest: string, segments: seq<Segment>, names: seq<string>) {
    && (forall i | 0 <= i < |parts| :: ProperPart(parts[i]))
    && Source(parts, rest) == value
    && segments == Segments(parts) && names == Names(parts)
  }

  lemma ReadOn(value: string, parts: seq<Part>, part: Part, rest: string, segments: seq<Segment>, names: seq<string>)
    requires ReadSoFar(value, parts, Written(part) + rest, segments, names) && ProperPart(part)
    ensures ReadSoFar(value, parts + [part], rest, segments + [Segment(part.literal, TrimSpace(part.raw))],
                      AddName(names, TrimSpace(part.raw)))
  {
    SourceMoves(parts, part, rest);
    Longer(parts, part);
  }

  /** A text compiles exactly when it is a proper template, into the segments
      and the names of its parts. */
  method CompileTemplate(value: string) returns (result: CompileResult, ghost parts: seq<Part>, ghost tail: string)
    ensures result.Invalid? ==> Hopeless(value)
    ensures result.Compiled? ==> IsTemplate(value, parts, tail)
                                 && result.segments == CompiledSegments(parts, tail) && result.names == Names(parts)
  {
    var segments: seq<Segment>, names: seq<string>, offset := [], [], 0;
    parts, tail := [], "";
    assert value[0..] == value;
    while offset < |value|
      invariant 0 <= offset <= |value| && ReadSoFar(value, parts, value[offset..], segments, names)
    {
      var remaining := value[offset..];
      var cut := NextPart(remaining);
      match cut {
        case Broken =>
          HopelessBehind(parts, remaining);
          return Invalid, parts, tail;
        case Plain =>
          if segments != [] {
            segments := segments + [Segment(remaining, "")];
          }
          tail := remaining;
          return Compiled(segments, names), parts, tail;
        case First(part, length) =>
          assert value[offset + length..] == remaining[length..];
          ReadOn(value, parts, part, remaining[length..], segments, names);
          segments := segments + [Segment(part.literal, TrimSpace(part.raw))];
          names := AddName(names, TrimSpace(part.raw));
          parts := parts + [part];
          offset := offset + length;
      }
    }
    assert value[offset..] == "";
    return Compiled(segments, names), parts, tail;
  }

  // ----- rendering

  predicate Bound(v: Vars, segments: seq<Segment>)
    requires v.FramesStored()
  {
    forall i | 0 <= i < |segments| :: segments[i].variable == "" || Value(v, segments[i].variable).Some?
  }

  function Filled(v: Vars, segment: Segment): string
    requires v.FramesStored() && Bound(v, [segment])
  {
    assert [segment][0] == segment;
    segment.literal + if segment.variable == "" then "" else Value(v, segment.variable).value
  }

  function Rendered(v: Vars, segments: seq<Segment>): string
    requires v.FramesStored() && Bound(v, segments)
  {
    if segments == [] then ""
    else Rendered(v, segments[..|segments| - 1]) + Filled(v, segments[|segments| - 1])
  }

  method Render(variables: WorkerVariables, segments: seq<Segment>) returns (rendered: Option<string>)
    requires variables.Valid()
    ensures rendered.Some? <==> Bound(variables.State(), segments)
    ensures rendered.Some? ==> rendered.value == Rendered(variables.State(), segments)
  {
    hide Visible;
    ghost var v := variables.State();
    var buffer := "";
    for n := 0 to |segments|
      invariant Bound(v, segments[..n]) && buffer == Rendered(v, segments[..n])
    {
      var segment := segments[n];
      assert segments[..n + 1][..n] == segments[..n];
      buffer := buffer + segment.literal;
      if segment.variable == "" {
        assert Filled(v, segment) == segment.literal + "";
        continue;
      }
      var value := variables.Lookup(segment.variable);
      if value.None? {
        return None;
      }
      buffer := buffer + value.value;
    }
    assert segments[..|segments|] == segments;
    return Some(buffer);
  }

  lemma {:induction false} NamesAreUsed(parts: seq<Part>, name: string)
    ensures name in Names(parts) <==> exists i :: 0 <= i < |parts| && TrimSpace(parts[i].raw) == name
  {
    if parts != [] {
      var last := |parts| - 1;
      NamesAreUsed(parts[..last], name);
      if name in Names(parts[..last]) {
        var i :| 0 <= i < last && TrimSpace(parts[..last][i].raw) == name;
        assert TrimSpace(parts[i].raw) == name;
      }
      if i :| 0 <= i < |parts| && TrimSpace(parts[i].raw) == name {
        if i < last {
          assert parts[..last][i] == parts[i];
        }
      }
    }
  }

  predicate HasValues(v: Vars, parts: seq<Part>)
    requires v.FramesStored()
  {
    forall i | 0 <= i < |parts| :: Value(v, TrimSpace(parts[i].raw)).Some?
  }

  /** The names that the plan checks are checked for suffice to render. */
  lemma NamesSuffice(v: Vars, parts: seq<Part>)
    requires v.FramesStored()
    ensures Renders(v, Names(parts)) <==> HasValues(v, parts)
  {
    var names := Names(parts);
    if Renders(v, names) {
      forall i | 0 <= i < |parts|
        ensures Value(v, TrimSpace(parts[i].raw)).Some?
      {
        NamesAreUsed(parts, TrimSpace(parts[i].raw));
        var k :| 0 <= k < |names| && names[k] == TrimSpace(parts[i].raw);
      }
    }
    if HasValues(v, parts) {
      forall k | 0 <= k < |names|
        ensures Value(v, names[k]).Some?
      {
        NamesAreUsed(parts, names[k]);
        assert names[k] in names;
        var i :| 0 <= i < |parts| && TrimSpace(parts[i].raw) == names[k];
      }
    }
  }

  lemma SegmentsBound(v: Vars, parts: seq<Part>, tail: string)
    requires v.FramesStored() && Proper(parts, tail)
    ensures Bound(v, CompiledSegments(parts, tail)) <==> Renders(v, Names(parts))
  {
    NamesSuffice(v, parts);
    var segments := CompiledSegments(parts, tail);
    forall i | 0 <= i < |parts|
      ensures segments[i].variable == TrimSpace(parts[i].raw) != ""
    {
      assert ProperPart(parts[i]);
    }
  }

  lemma {:induction false} RenderedFirst(v: Vars, segment: Segment, rest: seq<Segment>)
    requires v.FramesStored() && Bound(v, [segment]) && Bound(v, rest) && Bound(v, [segment] + rest)
    ensures Rendered(v, [segment] + rest) == Filled(v, segment) + Rendered(v, rest)
  {
    var whole := [segment] + rest;
    if rest == [] {
      assert whole[..0] == [];
    } else {
      var last := |rest| - 1;
      assert whole[..|whole| - 1] == [segment] + rest[..last];
      RenderedFirst(v, segment, rest[..last]);
    }
  }

  /** The literals of a text with other words between them. */
  function Interleaved(parts: seq<Part>, words: seq<string>, tail: string): string
    requires |words| == |parts|
  {
    if parts == [] then tail else parts[0].literal + words[0] + Interleaved(parts[1..], words[1..], tail)
  }

  function Delimited(parts: seq<Part>): (r: seq<string>)
    ensures |r| == |parts|
  {
    seq(|parts|, i requires 0 <= i < |parts| => "{{" + parts[i].raw + "}}")
  }

  function ValuesOf(v: Vars, parts: seq<Part>): (r: seq<string>)
    requires v.FramesStored() && HasValues(v, parts)
    ensures |r| == |parts|
  {
    seq(|parts|, i requires 0 <= i < |parts| => Value(v, TrimSpace(parts[i].raw)).value)
  }

  lemma {:induction false} SourceInterleaves(parts: seq<Part>, tail: string)
    ensures Source(parts, tail) == Interleaved(parts, Delimited(parts), tail)
  {
    if parts != [] {
      SourceInterleaves(parts[1..], tail);
      assert Delimited(parts)[1..] == Delimited(parts[1..]);
      assert Written(parts[0]) == parts[0].literal + Delimited(parts)[0];
    }
  }

  /** The segments behind the first one. */
  function RestSegments(parts: seq<Part>, tail: string): seq<Segment>
    requires parts != []
  {
    if |parts| == 1 then (if tail != "" then [Segment(tail, "")] else []) else CompiledSegments(parts[1..], tail)
  }

  lemma SegmentsSplit(parts: seq<Part>, tail: string)
    requires parts != []
    ensures CompiledSegments(parts, tail)
         == [Segment(parts[0].literal, TrimSpace(parts[0].raw))] + RestSegments(parts, tail)
  {
    assert Segments(parts)[1..] == Segments(parts[1..]);
  }

  lemma ValuesBound(v: Vars, parts: seq<Part>, tail: string)
    requires v.FramesStored() && HasValues(v, parts)
    ensures Bound(v, CompiledSegments(parts, tail))
  {
  }

  lemma {:induction false} RenderedInterleaves(v: Vars, parts: seq<Part>, tail: string)
    requires v.FramesStored() && Proper(parts, tail) && parts != [] && HasValues(v, parts)
    ensures Bound(v, CompiledSegments(parts, tail))
    ensures Rendered(v, CompiledSegments(parts, tail)) == Interleaved(parts, ValuesOf(v, parts), tail)
    decreases |parts|
  {
    hide TrimSpace, CompiledSegments;
    var first := Segment(parts[0].literal, TrimSpace(parts[0].raw));
    ValuesBound(v, parts, tail);
    SegmentsSplit(parts, tail);
    TailRendered(v, tail);
    assert ProperPart(parts[0]);
    assert ValuesOf(v, parts)[1..] == ValuesOf(v, parts[1..]);
    if |parts| > 1 {
      RenderedInterleaves(v, parts[1..], tail);
    }
    assert Bound(v, [first]) && Filled(v, first) == parts[0].literal + ValuesOf(v, parts)[0];
    RenderedFirst(v, first, RestSegments(parts, tail));
  }

  /** Rendering replaces what stands between the delimiters, and only that:
      the literals of the compiled text stay, and the value of each name stands
      where the name was delimited. */
  lemma RenderingPutsValuesInPlace(v: Vars, value: string, parts: seq<Part>, tail: string)
    requires v.FramesStored() && IsTemplate(value, parts, tail) && parts != [] && HasValues(v, parts)
    ensures value == Interleaved(parts, Delimited(parts), tail)
    ensures Bound(v, CompiledSegments(parts, tail))
    ensures Rendered(v, CompiledSegments(parts, tail)) == Interleaved(parts, ValuesOf(v, parts), tail)
  {
    SourceInterleaves(parts, tail);
    RenderedInterleaves(v, parts, tail);
  }

  lemma TailRendered(v: Vars, tail: string)
    requires v.FramesStored()
    ensures var rest := if tail != "" then [Segment(tail, "")] else [];
            Bound(v, rest) && Rendered(v, rest) == tail
  {
    if tail != "" {
      assert [Segment(tail, "")][..0] == [];
    }
  }
}
