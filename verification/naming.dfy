/** Name normalisation: the container name, the pod host name, the service
    name derived from an application name, and the label-selector string
    built from a label map. */
module Naming {
  import opened Strings

  /** The two-character sequence backslash, dot. */
  const EscapedDot: string := "\\."

  /** `formatContainerName`: every escaped dot becomes a hyphen, so the name
      is one character shorter per escaped dot and none is left; a name
      without one is kept as it is. */
  function FormatContainerName(appName: string): (r: string)
    ensures |r| == |appName| - Matches(appName, EscapedDot)
    ensures !Contains(r, EscapedDot)
    ensures r == appName <==> !Contains(appName, EscapedDot)
  {
    ReplaceAllLength(appName, EscapedDot, "-");
    HyphensLeaveNoEscapedDot(appName);
    ReplaceAllUnchangedIff(appName, EscapedDot, "-");
    ReplaceAll(appName, EscapedDot, "-")
  }

  /** The pod host name: every escaped dot is deleted, so the name is two
      characters shorter per escaped dot; a name without one is kept as it
      is. */
  function PodHostname(podName: string): (r: string)
    ensures |r| == |podName| - 2 * Matches(podName, EscapedDot)
    ensures r == podName <==> !Contains(podName, EscapedDot)
  {
    ReplaceAllLength(podName, EscapedDot, "");
    ReplaceAllUnchangedIff(podName, EscapedDot, "");
    ReplaceAll(podName, EscapedDot, "")
  }

  // ---------------------------------------------------------------------
  // Container name

  lemma OccursAtUnshift(c: string, t: string, pat: string, i: int)
    requires OccursAt(c + t, pat, i) && i >= |c|
    ensures OccursAt(t, pat, i - |c|)
  {
    assert (c + t)[i..i + |pat|] == t[i - |c|..i - |c| + |pat|];
  }

  /** An escaped dot at `i` is a backslash at `i` followed by a dot. */
  lemma OccursAtEscapedDot(r: string, i: int)
    ensures OccursAt(r, EscapedDot, i) <==> 0 <= i && i + 2 <= |r| && r[i] == '\\' && r[i + 1] == '.'
  {
    if 0 <= i && i + 2 <= |r| {
      assert r[i..i + 2] == [r[i], r[i + 1]];
    }
  }

  /** Replacing escaped dots by hyphens starts with a hyphen or with the
      first character of the input. */
  lemma HyphenatedHead(s: string)
    requires |s| > 0
    ensures var r := ReplaceAll(s, EscapedDot, "-");
      |r| > 0 && (r[0] == '-' || r[0] == s[0])
  {
  }

  /** No escaped dot survives being replaced by hyphens: a hyphen can never
      start a new one. */
  lemma {:induction false} HyphensLeaveNoEscapedDot(s: string)
    ensures !Contains(ReplaceAll(s, EscapedDot, "-"), EscapedDot)
    decreases |s|
  {
    var r := ReplaceAll(s, EscapedDot, "-");
    if |s| < 2 {
      assert r == s;
    } else if s[..2] == EscapedDot {
      var t := ReplaceAll(s[2..], EscapedDot, "-");
      HyphensLeaveNoEscapedDot(s[2..]);
      assert r == "-" + t;
      forall i | 0 <= i <= |r|
        ensures !OccursAt(r, EscapedDot, i)
      {
        if i >= 1 && OccursAt(r, EscapedDot, i) {
          OccursAtUnshift("-", t, EscapedDot, i);
        }
        if i == 0 {
          OccursAtEscapedDot(r, 0);
          assert r[0] == '-';
        }
      }
    } else {
      var t := ReplaceAll(s[1..], EscapedDot, "-");
      HyphensLeaveNoEscapedDot(s[1..]);
      assert r == [s[0]] + t;
      forall i | 0 <= i <= |r|
        ensures !OccursAt(r, EscapedDot, i)
      {
        if i >= 1 && OccursAt(r, EscapedDot, i) {
          OccursAtUnshift([s[0]], t, EscapedDot, i);
        }
        if i == 0 {
          OccursAtEscapedDot(r, 0);
          OccursAtEscapedDot(s, 0);
          if |r| >= 2 {
            HyphenatedHead(s[1..]);
            assert r[1] == t[0];
          }
        }
      }
    }
  }

  /** Formatting a container name twice formats it once. */
  lemma FormatContainerNameIdempotent(s: string)
    ensures FormatContainerName(FormatContainerName(s)) == FormatContainerName(s)
  {
  }

  /** An escaped dot becomes a hyphen; a plain dot stays. The literals are
      passed as parameters so that the solver does not unfold them. */
  lemma FormatContainerNameExamples(a: string, b: string)
    requires a == "my\\.app" && b == "my.app"
    ensures FormatContainerName(a) == "my-app"
    ensures FormatContainerName(b) == b
  {
    forall i | 0 <= i <= 3
      ensures !OccursAt("app", EscapedDot, i)
    {
      OccursAtEscapedDot("app", i);
    }
    assert FormatContainerName("app") == "app";
    assert a[..2] != EscapedDot by { assert a[..2][1] == 'y'; }
    assert a[1..][..2] != EscapedDot by { assert a[1..][..2][0] == 'y'; }
    assert a[2..][..2] == EscapedDot;
    assert a[2..][2..] == "app";
    assert FormatContainerName(a[2..]) == "-app";
    assert FormatContainerName(a[1..]) == "y-app";
    assert FormatContainerName(a) == "my-app";
    forall i | 0 <= i <= |b|
      ensures !OccursAt(b, EscapedDot, i)
    {
      OccursAtEscapedDot(b, i);
    }
    assert FormatContainerName(b) == b;
  }

  // ---------------------------------------------------------------------
  // Host name

  /** The host name and the container name rewrite the same escaped dots:
      cutting the name at the escaped dots the scan finds gives pieces that
      the name, the container name and the host name join with `\.`, `-`
      and nothing respectively. */
  lemma HostnameAndContainerNameAgree(s: string)
    ensures var pieces := Pieces(s, EscapedDot);
      s == Join(pieces, EscapedDot) &&
      FormatContainerName(s) == Join(pieces, "-") &&
      PodHostname(s) == Join(pieces, "")
  {
    PiecesJoinBack(s, EscapedDot);
    ReplaceAllIsJoin(s, EscapedDot, "-");
    ReplaceAllIsJoin(s, EscapedDot, "");
  }

  /** Deleting escaped dots can join a backslash and a dot into a new one,
      so the host name rewrite is not idempotent. */
  lemma PodHostnameNotIdempotent()
    ensures PodHostname("\\\\..") == "\\."
    ensures PodHostname(PodHostname("\\\\..")) == ""
  {
    var s := "\\\\..";
    assert s[..2][1] != EscapedDot[1];
    assert s[1..][..2] == EscapedDot;
    assert s[1..][2..] == ".";
    assert PodHostname(".") == ".";
    assert PodHostname(s[1..]) == "" + ".";
    assert PodHostname(s) == [s[0]] + PodHostname(s[1..]);
    assert "\\."[..2] == EscapedDot;
    assert PodHostname("\\.") == "" + PodHostname("");
  }

  // ---------------------------------------------------------------------
  // Service name

  /** ASCII digits; a Go byte that is not an ASCII digit is not a Unicode
      digit either. */
  predicate IsDigit(c: char) {
    '0' <= c <= '9'
  }

  /** `getServiceFromAppName`: every dot becomes a hyphen, and a name that
      starts with a digit gets an "s" in front. The source indexes the first
      byte, so the name must not be empty. */
  function ServiceName(appName: string): (r: string)
    requires |appName| > 0
    ensures '.' !in r
    ensures |r| == |appName| + (if IsDigit(appName[0]) then 1 else 0)
    ensures IsDigit(appName[0]) ==> r[0] == 's'
    ensures var off := if IsDigit(appName[0]) then 1 else 0;
      forall i :: 0 <= i < |appName| ==> r[i + off] == (if appName[i] == '.' then '-' else appName[i])
  {
    var service := ReplaceAll(appName, ".", "-");
    ReplaceAllCharwise(appName, ".", "-");
    if IsDigit(appName[0]) then "s" + service else service
  }

  /** Two sample names. */
  lemma ServiceNameExamples()
    ensures ServiceName("3abc.def") == "s3abc-def"
    ensures ServiceName("abc.def") == "abc-def"
  {
    var x := "3abc.def";
    var a := ServiceName(x);
    forall i | 0 <= i < 9
      ensures a[i] == "s3abc-def"[i]
    {
      if i > 0 {
        assert a[(i - 1) + 1] == (if x[i - 1] == '.' then '-' else x[i - 1]);
      }
    }
    var y := "abc.def";
    var b := ServiceName(y);
    forall i | 0 <= i < 7
      ensures b[i] == "abc-def"[i]
    {
      assert b[i + 0] == (if y[i] == '.' then '-' else y[i]);
    }
  }

  // ---------------------------------------------------------------------
  // Label selector

  /** One `key=value` term per label, in the map's iteration order. */
  function SelectorTerms(labels: seq<(string, string)>): (terms: seq<string>)
    ensures |terms| == |labels|
  {
    seq(|labels|, i requires 0 <= i < |labels| => labels[i].0 + "=" + labels[i].1)
  }

  /** What `convert` writes into its builder: every term followed by a comma. */
  function SelectorBuffer(labels: seq<(string, string)>): string {
    if |labels| == 0 then ""
    else labels[0].0 + "=" + labels[0].1 + "," + SelectorBuffer(labels[1..])
  }

  /** `convert`: the builder's text without its final comma. A Go map is
      modelled by its entries in iteration order, which Go leaves
      unspecified. */
  function Convert(labels: seq<(string, string)>): (r: string)
    ensures |labels| == 0 <==> r == ""
  {
    var buffer := SelectorBuffer(labels);
    if |buffer| > 0 then buffer[..|buffer| - 1] else buffer
  }

  /** The builder holds the comma-joined terms plus one trailing comma. */
  lemma {:induction false} SelectorBufferIsJoin(labels: seq<(string, string)>)
    requires |labels| > 0
    ensures SelectorBuffer(labels) == Join(SelectorTerms(labels), ",") + ","
  {
    var terms := SelectorTerms(labels);
    if |labels| > 1 {
      SelectorBufferIsJoin(labels[1..]);
      assert SelectorTerms(labels[1..]) == terms[1..];
    }
  }

  /** `convert` joins the `key=value` terms with commas, with no trailing
      comma; the empty map gives the empty selector. */
  lemma ConvertIsJoin(labels: seq<(string, string)>)
    ensures Convert(labels) == Join(SelectorTerms(labels), ",")
  {
    if |labels| > 0 {
      SelectorBufferIsJoin(labels);
      var j := Join(SelectorTerms(labels), ",");
      assert (j + ",")[..|j|] == j;
    }
  }

  /** When no key or value holds a comma, splitting the selector on commas
      gives back exactly one term per label. */
  lemma ConvertSplitsBack(labels: seq<(string, string)>)
    requires |labels| > 0
    requires forall i :: 0 <= i < |labels| ==> ',' !in labels[i].0 && ',' !in labels[i].1
    ensures Split(Convert(labels), ',') == SelectorTerms(labels)
  {
    ConvertIsJoin(labels);
    var terms := SelectorTerms(labels);
    forall i | 0 <= i < |terms|
      ensures ',' !in terms[i]
    {
      assert terms[i] == labels[i].0 + "=" + labels[i].1;
    }
    SplitJoin(terms, ',');
  }
}
