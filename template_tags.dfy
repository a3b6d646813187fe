/** The template tags: the three job-list tag parsers with their nodes, and
    the nofollow filter. Tokens arrive already split (split_contents is the
    framework's); render(), which queries the store into the context, is not
    part of this model. */
module TemplateTags {
  import opened Results
  import opened Numerals

  datatype JobsTag = LatestJobs | SpotlightJobs | MostAppliedJobs

  /** The TemplateSyntaxError message of each parser. */
  function ArgumentCountMessage(tag: JobsTag): string {
    match tag
    case LatestJobs => "'get_latest_jobs' tag takes exactly four arguments"
    case SpotlightJobs => "'get_spotlight_jobs' tag takes exactly four arguments"
    case MostAppliedJobs => "'get_most_applied_jobs' tag takes exactly four arguments"
  }

  /** LatestJobsNode, SpotlightJobsNode or MostAppliedJobsNode, as built. */
  datatype JobsNode = JobsNode(tag: JobsTag, num: int, varname: string)

  datatype TagError = TemplateSyntaxError(message: string) | ValueError

  /** The node constructors: num = int(num), varname kept as given. */
  function NewJobsNode(tag: JobsTag, num: string, varname: string): (r: Result<JobsNode, TagError>)
    ensures r.Ok? <==> ParseInt(num).Ok?
    ensures r.Ok? ==> r.value == JobsNode(tag, ParseInt(num).value, varname)
    ensures r.Err? ==> r.error == ValueError
  {
    match ParseInt(num)
    case Ok(n) => Ok(JobsNode(tag, n, varname))
    case Err(_) => Err(ValueError)
  }

  /** A node built from a numeral str() writes holds that very number. */
  lemma NewJobsNodeOfNumeral(tag: JobsTag, n: int, varname: string)
    ensures NewJobsNode(tag, IntToString(n), varname) == Ok(JobsNode(tag, n, varname))
  {
    ParseIntOfIntToString(n);
  }

  /** The shared body of the three do_* parsers: exactly four bits, of which
      bits[1] is the count and bits[3] the variable name. */
  function ParseJobsTag(tag: JobsTag, bits: seq<string>): (r: Result<JobsNode, TagError>)
    ensures (r.Err? && r.error.TemplateSyntaxError?) <==> |bits| != 4
    ensures |bits| != 4 ==> r == Err(TemplateSyntaxError(ArgumentCountMessage(tag)))
    ensures |bits| == 4 ==> r == NewJobsNode(tag, bits[1], bits[3])
  {
    if |bits| != 4 then Err(TemplateSyntaxError(ArgumentCountMessage(tag)))
    else NewJobsNode(tag, bits[1], bits[3])
  }

  /** bits[0] (the tag name) and bits[2] (conventionally "as") are never read. */
  lemma ParseJobsTagIgnoresNameAndAs(tag: JobsTag, bits: seq<string>, name: string, asWord: string)
    requires |bits| == 4
    ensures ParseJobsTag(tag, bits) == ParseJobsTag(tag, [name, bits[1], asWord, bits[3]])
  {
  }

  /** do_latest_jobs */
  function DoLatestJobs(bits: seq<string>): (r: Result<JobsNode, TagError>)
    ensures (r.Err? && r.error.TemplateSyntaxError?) <==> |bits| != 4
    ensures r.Ok? ==> |bits| == 4 && ParseInt(bits[1]) == Ok(r.value.num)
    ensures r.Ok? ==> r.value.tag == LatestJobs && r.value.varname == bits[3]
    ensures r.Ok? <==> |bits| == 4 && ParseInt(bits[1]).Ok?
    ensures |bits| == 4 ==> r == NewJobsNode(LatestJobs, bits[1], bits[3])
  {
    ParseJobsTag(LatestJobs, bits)
  }

  /** do_spotlight_jobs */
  function DoSpotlightJobs(bits: seq<string>): (r: Result<JobsNode, TagError>)
    ensures (r.Err? && r.error.TemplateSyntaxError?) <==> |bits| != 4
    ensures r.Ok? ==> |bits| == 4 && ParseInt(bits[1]) == Ok(r.value.num)
    ensures r.Ok? ==> r.value.tag == SpotlightJobs && r.value.varname == bits[3]
    ensures r.Ok? <==> |bits| == 4 && ParseInt(bits[1]).Ok?
    ensures |bits| == 4 ==> r == NewJobsNode(SpotlightJobs, bits[1], bits[3])
  {
    ParseJobsTag(SpotlightJobs, bits)
  }

  /** do_most_applied_jobs */
  function DoMostAppliedJobs(bits: seq<string>): (r: Result<JobsNode, TagError>)
    ensures (r.Err? && r.error.TemplateSyntaxError?) <==> |bits| != 4
    ensures r.Ok? ==> |bits| == 4 && ParseInt(bits[1]) == Ok(r.value.num)
    ensures r.Ok? ==> r.value.tag == MostAppliedJobs && r.value.varname == bits[3]
    ensures r.Ok? <==> |bits| == 4 && ParseInt(bits[1]).Ok?
    ensures |bits| == 4 ==> r == NewJobsNode(MostAppliedJobs, bits[1], bits[3])
  {
    ParseJobsTag(MostAppliedJobs, bits)
  }

  // The examples below take their input as a parameter fixed by `requires`:
  // with the literal written into the ensures, the verifier unrolls the
  // recursive definitions on it without bound and runs out of resource.

  /** {% get_latest_jobs 5 as latest %} */
  lemma LatestJobsExample(bits: seq<string>)
    requires bits == ["get_latest_jobs", "5", "as", "latest"]
    ensures DoLatestJobs(bits) == Ok(JobsNode(LatestJobs, 5, "latest"))
  {
    NewJobsNodeOfNumeral(LatestJobs, 5, "latest");
    assert IntToString(5) == "5";
  }

  /** {% get_spotlight_jobs 5 %} is refused with the tag's own message. */
  lemma SpotlightJobsTooFewBits(bits: seq<string>)
    requires bits == ["get_spotlight_jobs", "5"]
    ensures DoSpotlightJobs(bits) ==
      Err(TemplateSyntaxError("'get_spotlight_jobs' tag takes exactly four arguments"))
  {
    assert |bits| != 4;
  }

  /** {% get_most_applied_jobs five as top %} fails in int(). */
  lemma MostAppliedJobsBadCount(bits: seq<string>)
    requires bits == ["get_most_applied_jobs", "five", "as", "top"]
    ensures DoMostAppliedJobs(bits) == Err(ValueError)
  {
    ParseIntRejectsWord(bits[1]);
  }

  // ---------------------------------------------------------------------
  // nofollow: re.sub(NOFOLLOW_RE, '<a rel="nofollow" ', content), where
  // NOFOLLOW_RE is  <a (?![^>]*rel=["']nofollow['"])(?![^>]*href=["']\.{0,2}/[^/])
  // compiled with IGNORECASE.

  /** c matches pattern character p under IGNORECASE (for the ASCII letters
      the pattern uses). */
  predicate CiEq(c: char, p: char) {
    c == p || ('a' <= p <= 'z' && c as int == p as int - 32)
  }

  predicate StartsWithCi(t: string, p: string) {
    |p| <= |t| && forall i :: 0 <= i < |p| ==> CiEq(t[i], p[i])
  }

  predicate IsQuote(c: char) {
    c == '"' || c == '\''
  }

  /** rel=["']nofollow['"] right at the start of v. */
  predicate NofollowRelHere(v: string) {
    && |v| >= 14
    && StartsWithCi(v, "rel=")
    && IsQuote(v[4])
    && StartsWithCi(v[5..], "nofollow")
    && IsQuote(v[13])
  }

  /** [^>]*rel=["']nofollow['"] matches at the start of u. */
  predicate HasNofollowRel(u: string) {
    |u| > 0 && (NofollowRelHere(u) || (u[0] != '>' && HasNofollowRel(u[1..])))
  }

  /** href=["'] then d dots, '/', and one character other than '/', right at the start of v. */
  predicate RelativeHrefWithDots(v: string, d: nat) {
    && d <= 2
    && |v| >= 8 + d
    && StartsWithCi(v, "href=")
    && IsQuote(v[5])
    && (forall i :: 6 <= i < 6 + d ==> v[i] == '.')
    && v[6 + d] == '/'
    && v[7 + d] != '/'
  }

  predicate RelativeHrefHere(v: string) {
    RelativeHrefWithDots(v, 0) || RelativeHrefWithDots(v, 1) || RelativeHrefWithDots(v, 2)
  }

  /** [^>]*href=["']\.{0,2}/[^/] matches at the start of u. */
  predicate HasRelativeHref(u: string) {
    |u| > 0 && (RelativeHrefHere(u) || (u[0] != '>' && HasRelativeHref(u[1..])))
  }

  /** NOFOLLOW_RE matches at the start of t. */
  predicate Rewrites(t: string) {
    StartsWithCi(t, "<a ") && !HasNofollowRel(t[3..]) && !HasRelativeHref(t[3..])
  }

  const NofollowAnchor: string := "<a rel=\"nofollow\" "

  /** nofollow(content): the substitution, scanning left to right; the
      lookaheads read the original text. A match can only start at '<'. */
  function Nofollow(t: string): (r: string)
    // the output is never shorter than the input
    ensures |r| >= |t|
    decreases |t|, 1
  {
    if |t| == 0 then ""
    else if t[0] != '<' then [t[0]] + Nofollow(t[1..])
    else NofollowAtLt(t)
  }

  /** The scan at a '<': the replacement when NOFOLLOW_RE matches there,
      otherwise the '<' itself. */
  function NofollowAtLt(t: string): (r: string)
    requires |t| > 0 && t[0] == '<'
    ensures |r| >= |t|
    decreases |t|, 0
  {
    if Rewrites(t) then NofollowAnchor + Nofollow(t[3..])
    else [t[0]] + Nofollow(t[1..])
  }

  // --- facts the proofs below are built from

  /** One step of the scan, whatever the first character. */
  lemma NofollowStep(t: string)
    requires |t| > 0
    ensures Nofollow(t) ==
      if Rewrites(t) then NofollowAnchor + Nofollow(t[3..]) else [t[0]] + Nofollow(t[1..])
  {
    if t[0] != '<' {
      assert !CiEq(t[0], '<');
    }
  }

  lemma CiEqNotLt(c: char, p: char)
    requires CiEq(c, p) && p != '<'
    ensures c != '<'
  {
  }

  /** One more character other than '<' in front of text that is already
      known to pass through unchanged. */
  lemma PlainKeptStep(p: string, w: string)
    requires |p| > 0 && p[0] != '<'
    requires Nofollow(p[1..] + w) == p[1..] + Nofollow(w)
    ensures Nofollow(p + w) == p + Nofollow(w)
  {
    var pw := p + w;
    assert pw[0] == p[0] && pw[1..] == p[1..] + w;
    NotLtNoRewrite(pw);
    ConsAppend(p[0], p[1..], Nofollow(w));
    assert [p[0]] + p[1..] == p;
  }

  lemma ConsAppend(c: char, s: string, o: string)
    ensures [c] + (s + o) == ([c] + s) + o
  {
  }

  /** Text without '<' passes through unchanged, whatever follows it. */
  lemma {:induction false} PlainKept(p: string, w: string)
    requires forall i :: 0 <= i < |p| ==> p[i] != '<'
    ensures Nofollow(p + w) == p + Nofollow(w)
  {
    if p == [] {
      assert p + w == w;
    } else {
      PlainKept(p[1..], w);
      PlainKeptStep(p, w);
    }
  }

  lemma PlainPrefixKept(u: string, m: nat)
    requires m <= |u|
    requires forall i :: 0 <= i < m ==> u[i] != '<'
    ensures Nofollow(u) == u[..m] + Nofollow(u[m..])
  {
    var p, w := u[..m], u[m..];
    assert p + w == u;
    assert forall i :: 0 <= i < |p| ==> p[i] == u[i];
    PlainKept(p, w);
  }

  /** A character other than '<' never starts a rewrite. */
  lemma NotLtNoRewrite(t: string)
    requires |t| > 0 && t[0] != '<'
    ensures !Rewrites(t)
    ensures Nofollow(t) == [t[0]] + Nofollow(t[1..])
  {
    assert !CiEq(t[0], '<');
  }

  lemma HeadMatches(t: string, p: string)
    ensures StartsWithCi(t, p) && |p| > 0 ==> CiEq(t[0], p[0])
  {
  }

  /** At a character that is neither '>' nor the start of a match, both
      lookaheads read on from the next character. */
  lemma LookaheadStep(u: string)
    requires |u| > 0 && u[0] != '>'
    requires !CiEq(u[0], 'r') && !CiEq(u[0], 'h')
    ensures HasNofollowRel(u) <==> HasNofollowRel(u[1..])
    ensures HasRelativeHref(u) <==> HasRelativeHref(u[1..])
  {
    HeadMatches(u, "rel=");
    HeadMatches(u, "href=");
  }

  /** Before the first '>', the part after "<a " carries the same lookahead
      facts as the text from "<a " onwards. */
  lemma LookaheadsSkipAnchor(u: string)
    requires StartsWithCi(u, "<a ")
    ensures HasNofollowRel(u) <==> HasNofollowRel(u[3..])
    ensures HasRelativeHref(u) <==> HasRelativeHref(u[3..])
  {
    assert CiEq(u[0], "<a "[0]) && CiEq(u[1], "<a "[1]) && CiEq(u[2], "<a "[2]);
    LookaheadStep(u);
    assert u[1..][0] == u[1] && u[1..][1..] == u[2..];
    LookaheadStep(u[1..]);
    assert u[2..][0] == u[2] && u[2..][1..] == u[3..];
    LookaheadStep(u[2..]);
  }

  lemma NofollowRelHereKept(u: string)
    requires NofollowRelHere(u)
    ensures NofollowRelHere(Nofollow(u))
  {
    forall i | 0 <= i < 14 ensures u[i] != '<' {
      if i < 4 {
        CiEqNotLt(u[i], "rel="[i]);
      } else if 5 <= i < 13 {
        assert u[5..][i - 5] == u[i];
        assert CiEq(u[5..][i - 5], "nofollow"[i - 5]);
        CiEqNotLt(u[i], "nofollow"[i - 5]);
      }
    }
    PlainPrefixKept(u, 14);
    var o := Nofollow(u);
    assert o[..14] == u[..14];
    assert forall i :: 0 <= i < 14 ==> o[i] == u[i];
    assert o[5..][..8] == u[5..][..8];
  }

  lemma RelativeHrefHereKept(u: string, d: nat)
    requires RelativeHrefWithDots(u, d)
    ensures RelativeHrefWithDots(Nofollow(u), d)
  {
    var m := 7 + d;
    forall i | 0 <= i < m ensures u[i] != '<' {
      if i < 5 {
        CiEqNotLt(u[i], "href="[i]);
      }
    }
    PlainPrefixKept(u, m);
    var o := Nofollow(u);
    assert forall i :: 0 <= i < m ==> o[i] == u[i];
    assert o[m] == u[m];
  }

  /** nofollow keeps a rel="nofollow" lookahead true. */
  lemma {:induction false} HasNofollowRelKept(u: string)
    requires HasNofollowRel(u)
    ensures HasNofollowRel(Nofollow(u))
    decreases |u|
  {
    if NofollowRelHere(u) {
      NofollowRelHereKept(u);
    } else {
      assert u[0] != '>' && HasNofollowRel(u[1..]);
      if StartsWithCi(u, "<a ") {
        LookaheadsSkipAnchor(u);
      }
      assert !Rewrites(u);
      HasNofollowRelKept(u[1..]);
      NofollowStep(u);
      var o := Nofollow(u);
      assert o == [u[0]] + Nofollow(u[1..]);
      assert o[1..] == Nofollow(u[1..]);
    }
  }

  /** nofollow keeps a site-relative-link lookahead true. */
  lemma {:induction false} HasRelativeHrefKept(u: string)
    requires HasRelativeHref(u)
    ensures HasRelativeHref(Nofollow(u))
    decreases |u|
  {
    if RelativeHrefHere(u) {
      if RelativeHrefWithDots(u, 0) {
        RelativeHrefHereKept(u, 0);
      } else if RelativeHrefWithDots(u, 1) {
        RelativeHrefHereKept(u, 1);
      } else {
        RelativeHrefHereKept(u, 2);
      }
    } else {
      assert u[0] != '>' && HasRelativeHref(u[1..]);
      if StartsWithCi(u, "<a ") {
        LookaheadsSkipAnchor(u);
      }
      assert !Rewrites(u);
      HasRelativeHrefKept(u[1..]);
      NofollowStep(u);
      var o := Nofollow(u);
      assert o == [u[0]] + Nofollow(u[1..]);
      assert o[1..] == Nofollow(u[1..]);
    }
  }

  /** When the text is not rewritten at its start but the output starts
      with "<a ", the input started with the same three characters. */
  lemma AnchorStartKept(t: string)
    requires !Rewrites(t) && StartsWithCi(Nofollow(t), "<a ")
    ensures StartsWithCi(t, "<a ")
    ensures Nofollow(t)[3..] == Nofollow(t[3..])
  {
    var o := Nofollow(t);
    assert CiEq(o[0], "<a "[0]) && CiEq(o[1], "<a "[1]) && CiEq(o[2], "<a "[2]);
    assert |t| > 0;
    KeptStep(t);
    var t1 := t[1..];
    assert |t1| > 0;
    assert t1[0] == o[1];
    KeptStep(t1);
    var t2 := t1[1..];
    assert |t2| > 0;
    assert t2[0] == o[2];
    KeptStep(t2);
    assert t2[1..] == t[3..];
    assert t[0] == o[0] && t[1] == o[1] && t[2] == o[2];
  }

  /** A character the scan does not rewrite is copied, and the scan moves on by one. */
  lemma KeptStep(t: string)
    requires |t| > 0 && (t[0] != '<' || !Rewrites(t))
    ensures |Nofollow(t)| > 0 && Nofollow(t)[0] == t[0]
    ensures Nofollow(t)[1..] == Nofollow(t[1..])
  {
    if t[0] != '<' {
      NotLtNoRewrite(t);
    }
  }

  /** The anchor nofollow writes carries rel="nofollow" itself. */
  lemma MarkedAnchorHasRel(rest: string)
    ensures NofollowRelHere((NofollowAnchor + rest)[3..])
  {
    var v := (NofollowAnchor + rest)[3..];
    var w := "rel=\"nofollow\" ";
    assert v == w + rest;
    assert forall i :: 0 <= i < |w| ==> v[i] == w[i];
    assert forall i :: 0 <= i < 4 ==> v[i] == "rel="[i];
    assert v[4] == '"' && v[13] == '"';
    assert forall i :: 0 <= i < 8 ==> v[5..][i] == "nofollow"[i];
  }

  /** Nothing the pattern matches is left in the output. */
  predicate NoRewriteIn(o: string) {
    forall j :: 0 <= j < |o| ==> !Rewrites(o[j..])
  }

  /** Writing the marked anchor in front of clean output keeps it clean. */
  lemma MarkedAnchorThenClean(rest: string)
    requires NoRewriteIn(rest)
    ensures NoRewriteIn(NofollowAnchor + rest)
  {
    var o := NofollowAnchor + rest;
    forall j | 0 <= j < |o| ensures !Rewrites(o[j..]) {
      if j == 0 {
        MarkedAnchorHasRel(rest);
      } else if j < 18 {
        assert o[j] == NofollowAnchor[j];
        assert !CiEq(o[j..][0], '<');
      } else {
        assert o[j..] == rest[j - 18..];
      }
    }
  }

  /** Where the scan did not rewrite, the output does not start a match either. */
  lemma CopiedStartNotRewritten(t: string)
    requires !Rewrites(t)
    ensures !Rewrites(Nofollow(t))
  {
    if StartsWithCi(Nofollow(t), "<a ") {
      AnchorStartKept(t);
      if HasNofollowRel(t[3..]) {
        HasNofollowRelKept(t[3..]);
      } else {
        HasRelativeHrefKept(t[3..]);
      }
    }
  }

  /** A string is clean when its start and everything after its first character are. */
  lemma CleanFromSecond(o: string)
    requires |o| > 0 && !Rewrites(o) && NoRewriteIn(o[1..])
    ensures NoRewriteIn(o)
  {
    forall j | 0 <= j < |o| ensures !Rewrites(o[j..]) {
      if j == 0 {
        assert o[0..] == o;
      } else {
        assert o[j..] == o[1..][j - 1..];
      }
    }
  }

  /** Copying a character the scan did not rewrite in front of clean output
      keeps it clean. */
  lemma CopiedThenClean(t: string)
    requires |t| > 0 && !Rewrites(t) && NoRewriteIn(Nofollow(t[1..]))
    ensures NoRewriteIn(Nofollow(t))
  {
    KeptStep(t);
    CopiedStartNotRewritten(t);
    CleanFromSecond(Nofollow(t));
  }

  /** No rewritable "<a " is left anywhere in the output of nofollow: every
      anchor it produces or keeps is marked nofollow or links site-relatively. */
  lemma {:induction false} OutputHasNoRewrite(t: string)
    ensures forall j :: 0 <= j < |Nofollow(t)| ==> !Rewrites(Nofollow(t)[j..])
    decreases |t|
  {
    if |t| > 0 {
      if Rewrites(t) {
        OutputHasNoRewrite(t[3..]);
        MarkedAnchorThenClean(Nofollow(t[3..]));
      } else {
        OutputHasNoRewrite(t[1..]);
        CopiedThenClean(t);
      }
    }
  }

  /** Text in which nothing is rewritable comes back unchanged. */
  lemma {:induction false} NofollowIdentity(t: string)
    requires forall j :: 0 <= j < |t| ==> !Rewrites(t[j..])
    ensures Nofollow(t) == t
    decreases |t|
  {
    if |t| > 0 {
      assert !Rewrites(t[0..]);
      assert t[0..] == t;
      forall j | 0 <= j < |t[1..]| ensures !Rewrites(t[1..][j..]) {
        assert t[1..][j..] == t[j + 1..];
      }
      NofollowIdentity(t[1..]);
    }
  }

  /** nofollow is idempotent. */
  lemma NofollowIdempotent(content: string)
    ensures Nofollow(Nofollow(content)) == Nofollow(content)
  {
    OutputHasNoRewrite(content);
    NofollowIdentity(Nofollow(content));
  }

  /** Text without any '<' is left as it is. */
  lemma NofollowWithoutTags(content: string)
    requires forall i :: 0 <= i < |content| ==> content[i] != '<'
    ensures Nofollow(content) == content
  {
    PlainPrefixKept(content, |content|);
    assert content[|content|..] == "";
  }

  /** An "<a " whose tag already says rel="nofollow", or whose href is
      site-relative, is copied as it is (including its case), and the scan
      goes on after it. */
  lemma NofollowAtAnchor(t: string)
    requires StartsWithCi(t, "<a ")
    ensures HasNofollowRel(t[3..]) || HasRelativeHref(t[3..]) ==>
      Nofollow(t) == t[..3] + Nofollow(t[3..])
    // any other "<a " (in any case) becomes '<a rel="nofollow" '
    ensures !HasNofollowRel(t[3..]) && !HasRelativeHref(t[3..]) ==>
      Nofollow(t) == NofollowAnchor + Nofollow(t[3..])
  {
    if HasNofollowRel(t[3..]) || HasRelativeHref(t[3..]) {
      assert CiEq(t[1], "<a "[1]) && CiEq(t[2], "<a "[2]);
      KeptStep(t);
      var t1 := t[1..];
      KeptStep(t1);
      var t2 := t1[1..];
      KeptStep(t2);
      assert t2[1..] == t[3..];
      assert t[..3] == [t[0], t1[0], t2[0]];
    }
  }

  /** The number of rewritable "<a " in the text. */
  function RewriteCount(t: string): nat
    decreases |t|
  {
    if |t| == 0 then 0 else (if Rewrites(t) then 1 else 0) + RewriteCount(t[1..])
  }

  /** Each rewrite adds exactly the 15 characters of 'rel="nofollow" '; nothing else changes length. */
  lemma {:induction false} NofollowLength(t: string)
    ensures |Nofollow(t)| == |t| + 15 * RewriteCount(t)
    decreases |t|
  {
    if |t| > 0 {
      if Rewrites(t) {
        assert CiEq(t[1], "<a "[1]) && CiEq(t[2], "<a "[2]);
        NotLtNoRewrite(t[1..]);
        assert t[1..][1..] == t[2..];
        assert RewriteCount(t[1..]) == RewriteCount(t[2..]);
        NotLtNoRewrite(t[2..]);
        assert t[2..][1..] == t[3..];
        assert RewriteCount(t[2..]) == RewriteCount(t[3..]);
        NofollowLength(t[3..]);
      } else {
        NofollowLength(t[1..]);
      }
    }
  }

  // The examples below take their input as a parameter fixed by `requires`:
  // with the literal written into the ensures, the verifier unrolls the
  // recursive definitions on it without bound and runs out of resource.

  /** An anchor with no rel and an absolute href gains rel="nofollow". */
  lemma NofollowBareAnchor(t: string)
    requires t == "<A >"
    ensures Nofollow(t) == "<a rel=\"nofollow\" >"
  {
    var u := t[3..];
    assert u == ">";
    assert !HasNofollowRel(u) && !HasRelativeHref(u);
    assert Rewrites(t);
    NofollowWithoutTags(u);
  }

  /** A site-relative link is left alone. */
  lemma NofollowSiteRelativeLink(u: string)
    requires u == "href=\"/jobs\">"
    ensures Nofollow("<a " + u) == "<a " + u
  {
    var t := "<a " + u;
    assert t[3..] == u;
    assert forall i :: 0 <= i < 3 ==> t[i] == "<a "[i];
    assert RelativeHrefWithDots(u, 0);
    NofollowAtAnchor(t);
    NofollowWithoutTags(u);
    assert t[..3] == "<a ";
  }
}
