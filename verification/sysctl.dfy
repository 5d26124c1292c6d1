/** The tolerant parser for the template's sysctl string: comma-separated
    `name=value` segments, each trimmed as a whole; a segment without `=`
    is dropped without complaint. */
module Sysctls {
  import opened Strings
  import opened V1

  /** One segment: trimmed, split on `=`, and kept when that gives at least
      two fields, the first being the name and the second the value. Nothing
      is trimmed around the `=` and anything from a second `=` on is lost. */
  function ParseSegment(segment: string): (r: Option<Sysctl>)
    ensures r.Some? <==> '=' in TrimSpace(segment)
    ensures r.Some? ==>
      var t := TrimSpace(segment);
      var n := |r.value.name| + 1 + |r.value.value|;
      '=' !in r.value.name && '=' !in r.value.value &&
      n <= |t| && t[..n] == r.value.name + "=" + r.value.value && (n == |t| || t[n] == '=')
  {
    var t := TrimSpace(segment);
    var pair := Split(t, '=');
    SplitPieces(t, '=');
    if |pair| > 1 then
      SplitFront(t, '=');
      Some(Sysctl(pair[0], pair[1]))
    else
      None
  }

  /** The sysctl one segment contributes: none or one. */
  function SegmentSysctls(segment: string): (r: seq<Sysctl>)
    ensures r == [] <==> ParseSegment(segment).None?
    ensures r == [] || (|r| == 1 && ParseSegment(segment) == Some(r[0]))
  {
    match ParseSegment(segment)
    case Some(sysctl) => [sysctl]
    case None => []
  }

  /** The segments' sysctls, in segment order. */
  function ParseSegments(segments: seq<string>): (r: seq<Sysctl>)
    ensures |r| <= |segments|
  {
    if |segments| == 0 then []
    else SegmentSysctls(segments[0]) + ParseSegments(segments[1..])
  }

  /** The sysctls of a template: one per comma-separated segment that holds
      an `=`, so never more than the number of commas plus one. */
  function ParseSysctls(spec: string): (r: seq<Sysctl>)
    ensures |r| <= Occurrences(spec, ',') + 1
  {
    SplitPieces(spec, ',');
    ParseSegments(Split(spec, ','))
  }

  /** Parsing distributes over concatenated segment lists. */
  lemma {:induction false} ParseSegmentsAppend(a: seq<string>, b: seq<string>)
    ensures ParseSegments(a + b) == ParseSegments(a) + ParseSegments(b)
  {
    if |a| > 0 {
      assert (a + b)[0] == a[0] && (a + b)[1..] == a[1..] + b;
      ParseSegmentsAppend(a[1..], b);
      var x := SegmentSysctls(a[0]);
      assert x + ParseSegments(a[1..] + b) == x + (ParseSegments(a[1..]) + ParseSegments(b));
    } else {
      assert a + b == b;
    }
  }

  /** A sysctl is in the list exactly when some segment parses to it. */
  lemma {:induction false} ParseSegmentsMembers(segments: seq<string>)
    ensures forall x :: x in ParseSegments(segments) <==>
      exists i :: 0 <= i < |segments| && ParseSegment(segments[i]) == Some(x)
  {
    if |segments| > 0 {
      var rest := segments[1..];
      ParseSegmentsMembers(rest);
      var p := ParseSegment(segments[0]);
      var head := SegmentSysctls(segments[0]);
      var tail := ParseSegments(rest);
      assert ParseSegments(segments) == head + tail;
      forall x | x in ParseSegments(segments)
        ensures exists i :: 0 <= i < |segments| && ParseSegment(segments[i]) == Some(x)
      {
        OptionMember(head, p, tail, x);
        if p == Some(x) {
          assert ParseSegment(segments[0]) == Some(x);
        } else {
          var j :| 0 <= j < |rest| && ParseSegment(rest[j]) == Some(x);
          assert segments[j + 1] == rest[j];
        }
      }
      forall x | exists i :: 0 <= i < |segments| && ParseSegment(segments[i]) == Some(x)
        ensures x in ParseSegments(segments)
      {
        OptionMember(head, p, tail, x);
        var i :| 0 <= i < |segments| && ParseSegment(segments[i]) == Some(x);
        if i > 0 {
          assert rest[i - 1] == segments[i];
        }
      }
    }
  }

  /** A list of at most one element that mirrors an option, in front of
      `tail`, holds `x` exactly when the option is `x` or `tail` holds it. */
  lemma OptionMember(head: seq<Sysctl>, p: Option<Sysctl>, tail: seq<Sysctl>, x: Sysctl)
    requires head == [] <==> p.None?
    requires head == [] || (|head| == 1 && p == Some(head[0]))
    ensures x in head + tail <==> p == Some(x) || x in tail
  {
  }

  /** A comma separates two independent sysctl strings. */
  lemma ParseSysctlsAround(a: string, b: string)
    ensures ParseSysctls(a + "," + b) == ParseSysctls(a) + ParseSysctls(b)
  {
    SplitAround(a, b, ',');
    ParseSegmentsAppend(Split(a, ','), Split(b, ','));
  }

  /** A string without commas is one segment. */
  lemma ParseSysctlsSingle(s: string)
    requires ',' !in s
    ensures ParseSysctls(s) == SegmentSysctls(s)
  {
    SplitNoSeparator(s, ',');
  }

  /** The empty string gives no sysctls. */
  lemma ParseSysctlsEmpty()
    ensures ParseSysctls("") == []
  {
    ParseSysctlsSingle("");
    TrimSpaceFixedPoints("");
  }

  /** A trimmed `name=value` segment with a single `=` parses to that pair. */
  lemma ParseSegmentPair(name: string, value: string)
    requires '=' !in name && '=' !in value
    requires TrimSpace(name + "=" + value) == name + "=" + value
    ensures ParseSegment(name + "=" + value) == Some(Sysctl(name, value))
  {
    SplitAround(name, value, '=');
    SplitNoSeparator(name, '=');
    SplitNoSeparator(value, '=');
  }

  /** No white space is trimmed around the `=`: a segment whose ends are not
      white space keeps any spaces next to its `=` in the name and value. */
  lemma ParseSegmentKeepsInnerSpace(name: string, value: string)
    requires '=' !in name && '=' !in value
    requires |name| > 0 && !IsSpace(name[0]) && |value| > 0 && !IsSpace(value[|value| - 1])
    ensures ParseSegment(name + "=" + value) == Some(Sysctl(name, value))
  {
    var t := name + "=" + value;
    assert t[0] == name[0] && t[|t| - 1] == value[|value| - 1];
    TrimSpaceFixedPoints(t);
    ParseSegmentPair(name, value);
  }

  /** Fields after the second are lost: `a=b=c` gives the pair (a, b). */
  lemma ParseSegmentDropsExtraFields(name: string, value: string, rest: string)
    requires '=' !in name && '=' !in value
    requires var t := name + "=" + (value + "=" + rest); TrimSpace(t) == t
    ensures ParseSegment(name + "=" + (value + "=" + rest)) == Some(Sysctl(name, value))
  {
    var tail := value + "=" + rest;
    SplitAround(name, tail, '=');
    SplitAround(value, rest, '=');
    SplitNoSeparator(name, '=');
    SplitNoSeparator(value, '=');
    var pair := Split(name + "=" + tail, '=');
    assert pair == [name] + ([value] + Split(rest, '='));
    assert pair[0] == name && pair[1] == value;
  }

  /** A bare `=` gives an empty name and an empty value. The literal is
      passed as a parameter so that the solver does not unfold it. */
  lemma ParseSegmentBareEquals(u: string)
    requires u == "="
    ensures ParseSegment(u) == Some(Sysctl("", ""))
  {
    TrimSpaceFixedPoints(u);
    assert u == "" + "=" + "";
    ParseSegmentPair("", "");
  }

  /** A segment made only of white space is dropped. */
  lemma ParseSegmentBlank(s: string)
    requires forall k :: 0 <= k < |s| ==> IsSpace(s[k])
    ensures ParseSegment(s) == None
  {
    TrimSpaceFixedPoints(s);
  }
}
