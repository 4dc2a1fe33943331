/** The token view of a list of lines (BuildLineTokens in internal/webapi/webapi.go). */
module LineTokens {
  import opened Base
  import opened FieldNames
  import opened WebTokens
  import opened LineSegments
  import Grok
  import GrokNames

  /** A compiled pattern as the view sees it: the names of its groups, group 0 being the whole match,
      and where the groups of a line's match start and end. */
  datatype Regex = Regex(names: seq<string>, find: string -> Option<seq<int>>)

  /** The regexp engine's part: the named groups are those of the expansion, in order, and match
      indices lie within the line. */
  ghost predicate Compiled(t: Grok.Tables, p: Grok.Pattern, re: Regex) {
    && re.names != []
    && NamedInOrder(re.names, GrokNames.Groups(Grok.Expand(t, p, map[], 0).out))
    && forall line :: re.find(line).Some? ==> InRange(line, re.find(line).value, |re.names|)
  }

  /** What the view shows of a line: all of it as plain text if it is empty or does not match, else
      its segments. */
  ghost predicate Shows(re: Regex, line: string, segs: seq<Segment>)
    requires re.find(line).Some? ==> |re.find(line).value| == 2 * |re.names|
  {
    if line == "" || re.find(line).None? then segs == [Plain(line)]
    else Shown(line, re.find(line).value, |re.names|, segs)
  }

  method SegmentsOf(re: Regex, line: string) returns (segs: seq<Segment>)
    requires re.find(line).Some? ==> InRange(line, re.find(line).value, |re.names|)
    ensures Shows(re, line, segs)
  {
    var idx := re.find(line);
    if line == "" || idx.None? {
      segs := [Plain(line)];
    } else {
      segs := SegmentsFor(line, idx.value, |re.names|);
    }
  }

  /** BuildLineTokens: no view when the pattern does not expand or compile; otherwise one list of
      segments per line and a token for every group. When only the pattern's own references name groups
      and the field names do not clash, the i-th named group carries the primitive of the pattern's i-th
      reference with a field. */
  method BuildLineTokens(t: Grok.Tables, p: Grok.Pattern, regex: Option<Regex>, lines: seq<string>)
    returns (out: Option<seq<seq<Segment>>>, tokens: seq<string>)
    requires regex.Some? ==> Grok.Expand(t, p, map[], 0).ok && Compiled(t, p, regex.value)
    ensures out.None? <==> regex.None?
    ensures out.Some? ==> |out.value| == |lines|
    ensures out.Some? ==> forall i :: 0 <= i < |lines| ==> Shows(regex.value, lines[i], out.value[i])
    ensures out.Some? && GrokNames.Flat(t, p, 0) && NoClash(GrokNames.Fields(p)) ==>
              Assigned(RefsOf(p), regex.value.names, tokens, |regex.value.names|)
  {
    if regex.None? {
      return None, [];
    }
    var re := regex.value;
    tokens := GroupTokens(RefsOf(p), re.names);
    if GrokNames.Flat(t, p, 0) { CompiledNames(t, p, re.names); }
    var views: seq<seq<Segment>> := [];
    for i := 0 to |lines|
      invariant |views| == i && forall k :: 0 <= k < i ==> Shows(re, lines[k], views[k])
    {
      var segs := SegmentsOf(re, lines[i]);
      views := views + [segs];
    }
    return Some(views), tokens;
  }
}
