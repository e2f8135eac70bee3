/**
 * The naming convention of the pace-layer engine: feed names from marker-prefixed
 * category names, layer depths from `p<digits>` channel names, and pace depths from
 * role names ending in ` P<digits>`. Every function here is a regular expression of
 * the source written out over `seq<char>`.
 */
module Names {
  import opened Base

  /** The reserved feed marker 🌿, treated as one symbol. */
  const Marker: char := '\U{1F33F}'

  /** ECMAScript `\s`: WhiteSpace and LineTerminator code points. */
  predicate IsWhitespace(c: char) {
    || c == ' ' || c == '\t' || c == '\n' || c == '\r'
    || c == '\U{000B}' || c == '\U{000C}' || c == '\U{00A0}' || c == '\U{1680}'
    || ('\U{2000}' <= c <= '\U{200A}')
    || c == '\U{2028}' || c == '\U{2029}' || c == '\U{202F}' || c == '\U{205F}'
    || c == '\U{3000}' || c == '\U{FEFF}'
  }

  /** The character class `[-_\s]`. */
  predicate IsSeparator(c: char) {
    c == '-' || c == '_' || IsWhitespace(c)
  }

  /** The character class `\d` (ASCII digits only). */
  predicate IsDigit(c: char) {
    '0' <= c <= '9'
  }

  predicate AllDigits(s: string) {
    forall i :: 0 <= i < |s| ==> IsDigit(s[i])
  }

  // ---------------------------------------------------------------------------
  // Feed names: channelToRole

  /** Index of the first separator of `s`, or `|s|` when there is none. */
  function FirstSeparator(s: string): (i: nat)
    ensures i <= |s|
    ensures i < |s| ==> IsSeparator(s[i])
    ensures forall j :: 0 <= j < i ==> !IsSeparator(s[j])
  {
    if s == [] then 0
    else if IsSeparator(s[0]) then 0
    else 1 + FirstSeparator(s[1..])
  }

  /** The first separator of `s`, if any, turned into a space; later separators stay (the replace is not global). */
  function ReplaceFirstSeparator(s: string): (r: string)
    ensures |r| == |s|
    ensures forall j :: 0 <= j < |s| ==> r[j] == (if j == FirstSeparator(s) then ' ' else s[j])
  {
    var i := FirstSeparator(s);
    if i == |s| then s else s[..i] + " " + s[i + 1..]
  }

  /**
   * `channelToRole` of roleUtils.ts: after the 🌿 marker and one separator, the rest of the name is captured
   * (at least one character of any kind), and then only the first separator of the
   * capture becomes a space.
   */
  function FeedName(name: string): (r: Option<string>)
    ensures r.Some? <==> |name| >= 3 && name[0] == Marker && IsSeparator(name[1])
    ensures r.Some? ==> |r.value| == |name| - 2
    ensures r.Some? ==> forall j :: 0 <= j < |r.value| ==>
      r.value[j] == (if j == FirstSeparator(name[2..]) then ' ' else name[j + 2])
  {
    if |name| >= 3 && name[0] == Marker && IsSeparator(name[1])
    then Some(ReplaceFirstSeparator(name[2..]))
    else None
  }

  /** `isWorkFlow`: the name starts with the marker. */
  predicate IsWorkflow(name: string) {
    |name| >= 1 && name[0] == Marker
  }

  /** Only marker-prefixed names yield a feed name. */
  lemma FeedNameNeedsMarker(name: string)
    ensures FeedName(name).Some? ==> IsWorkflow(name)
  {
  }

  /** Length of the leading run of non-whitespace characters (`\S+` is greedy). */
  function NonSpaceRun(s: string): (n: nat)
    ensures n <= |s|
    ensures forall j :: 0 <= j < n ==> !IsWhitespace(s[j])
    ensures n < |s| ==> IsWhitespace(s[n])
  {
    if s == [] || IsWhitespace(s[0]) then 0 else 1 + NonSpaceRun(s[1..])
  }

  /**
   * The older `channelToRole` of Workflows.cmd.ts: after the marker and a separator, captures only the
   * first run of non-whitespace characters.
   */
  function WorkflowName(name: string): (r: Option<string>)
    ensures r.Some? <==> |name| >= 3 && name[0] == Marker && IsSeparator(name[1]) && !IsWhitespace(name[2])
    ensures r.Some? ==> 1 <= |r.value| <= |name| - 2
    ensures r.Some? ==> forall j :: 2 <= j < 2 + |r.value| ==> !IsWhitespace(name[j])
  {
    if |name| >= 3 && name[0] == Marker && IsSeparator(name[1]) && !IsWhitespace(name[2])
    then Some(ReplaceFirstSeparator(name[2..][..NonSpaceRun(name[2..])]))
    else None
  }

  /** The capture of the older parser is a prefix of the newer one's, so they agree on whitespace-free names. */
  lemma {:induction false} WorkflowNameAgrees(name: string)
    requires |name| >= 3 && name[0] == Marker && IsSeparator(name[1])
    requires forall j :: 2 <= j < |name| ==> !IsWhitespace(name[j])
    ensures WorkflowName(name) == FeedName(name)
  {
    var rest := name[2..];
    NonSpaceRunAll(rest);
    assert rest[..|rest|] == rest;
  }

  lemma {:induction false} NonSpaceRunAll(s: string)
    requires forall j :: 0 <= j < |s| ==> !IsWhitespace(s[j])
    ensures NonSpaceRun(s) == |s|
  {
    if s != [] {
      NonSpaceRunAll(s[1..]);
    }
  }

  // ---------------------------------------------------------------------------
  // Decimal numbers: parseInt and template-literal rendering

  function DigitValue(c: char): nat
    requires IsDigit(c)
  {
    c as int - '0' as int
  }

  function DigitChar(n: nat): (c: char)
    requires n < 10
    ensures IsDigit(c) && DigitValue(c) == n
  {
    ('0' as int + n) as char
  }

  /** `parseInt` of a non-empty run of ASCII digits (leading zeros allowed). */
  function DigitsValue(s: string): nat
    requires AllDigits(s)
  {
    if s == [] then 0 else DigitsValue(s[..|s| - 1]) * 10 + DigitValue(s[|s| - 1])
  }

  /** A natural number rendered as a string: decimal digits without leading zeros. */
  function NatToString(n: nat): (s: string)
    ensures |s| >= 1 && AllDigits(s)
  {
    if n < 10 then [DigitChar(n)] else NatToString(n / 10) + [DigitChar(n % 10)]
  }

  /** Parsing the rendering of a number gives the number back. */
  lemma {:induction false} DigitsRoundTrip(n: nat)
    ensures DigitsValue(NatToString(n)) == n
  {
    var s := NatToString(n);
    if n >= 10 {
      DigitsRoundTrip(n / 10);
      assert s[..|s| - 1] == NatToString(n / 10);
    }
  }

  /** Rendering is injective: two depths give two different strings. */
  lemma NatToStringInjective(a: nat, b: nat)
    requires NatToString(a) == NatToString(b)
    ensures a == b
  {
    DigitsRoundTrip(a);
    DigitsRoundTrip(b);
  }

  /** Length of the leading digit run of `s` (`\d+` is greedy). */
  function DigitRun(s: string): (n: nat)
    ensures n <= |s|
    ensures forall j :: 0 <= j < n ==> IsDigit(s[j])
    ensures n < |s| ==> !IsDigit(s[n])
  {
    if s == [] || !IsDigit(s[0]) then 0 else 1 + DigitRun(s[1..])
  }

  /** Length of the trailing digit run of `s`. */
  function TrailingDigits(s: string): (n: nat)
    ensures n <= |s|
    ensures forall j :: |s| - n <= j < |s| ==> IsDigit(s[j])
    ensures n < |s| ==> !IsDigit(s[|s| - n - 1])
  {
    if s == [] || !IsDigit(s[|s| - 1]) then 0 else 1 + TrailingDigits(s[..|s| - 1])
  }

  // ---------------------------------------------------------------------------
  // Channel depths: getPaceChannelDepth

  /** Index of the first `p` that is followed by a digit, or `|s|` when there is none. */
  function FirstTag(s: string): (i: nat)
    ensures i <= |s|
    ensures i < |s| ==> i + 1 < |s| && s[i] == 'p' && IsDigit(s[i + 1])
    ensures forall j :: 0 <= j < i && j + 1 < |s| ==> !(s[j] == 'p' && IsDigit(s[j + 1]))
  {
    if |s| < 2 then |s|
    else if s[0] == 'p' && IsDigit(s[1]) then 0
    else 1 + FirstTag(s[1..])
  }

  /**
   * `getPaceChannelDepth`: the leftmost lower-case `p` that is followed by a digit is found,
   * and the whole digit run after it is read; `false` (here `None`) when there is none.
   * The captured string is never empty, so `p0` gives `Some(0)`.
   */
  function ChannelDepth(name: string): (r: Option<nat>)
    ensures r.None? <==> forall j :: 0 <= j < |name| - 1 ==> !(name[j] == 'p' && IsDigit(name[j + 1]))
  {
    var i := FirstTag(name);
    if i == |name| then None
    else
      var digits := name[i + 1..];
      Some(DigitsValue(digits[..DigitRun(digits)]))
  }

  /** A tag `p<digits>` is read in full when no earlier `p` is followed by a digit. */
  lemma {:induction false} ChannelDepthOfTagged(pre: string, ds: string, post: string)
    requires |ds| >= 1 && AllDigits(ds)
    requires forall j :: 0 <= j < |pre| - 1 ==> !(pre[j] == 'p' && IsDigit(pre[j + 1]))
    requires post == [] || !IsDigit(post[0])
    ensures ChannelDepth(pre + "p" + ds + post) == Some(DigitsValue(ds))
  {
    var s := pre + "p" + ds + post;
    FirstTagAfter(pre, ds + post);
    assert s == pre + ("p" + (ds + post));
    var digits := s[|pre| + 1..];
    assert digits == ds + post;
    DigitRunOf(ds, post);
    assert digits[..|ds|] == ds;
  }

  lemma {:induction false} FirstTagAfter(pre: string, rest: string)
    requires |rest| >= 1 && IsDigit(rest[0])
    requires forall j :: 0 <= j < |pre| - 1 ==> !(pre[j] == 'p' && IsDigit(pre[j + 1]))
    ensures FirstTag(pre + ("p" + rest)) == |pre|
  {
    var s := pre + ("p" + rest);
    if pre != [] {
      assert s[1..] == pre[1..] + ("p" + rest);
      FirstTagAfter(pre[1..], rest);
      if |pre| == 1 {
        assert s[1] == 'p';
      }
    }
  }

  lemma {:induction false} DigitRunOf(ds: string, post: string)
    requires AllDigits(ds)
    requires post == [] || !IsDigit(post[0])
    ensures DigitRun(ds + post) == |ds|
  {
    if ds != [] {
      assert (ds + post)[1..] == ds[1..] + post;
      DigitRunOf(ds[1..], post);
    }
  }

  // ---------------------------------------------------------------------------
  // Role depths: getPaceRoleDepthFromString and the trailing " P<digits>" suffix

  /** Where the name's trailing " P<digits>" suffix begins, when it has one. */
  function PaceSuffixStart(s: string): (r: Option<nat>)
    ensures r.Some? ==> r.value + 3 <= |s| && s[r.value] == ' ' && s[r.value + 1] == 'P' && AllDigits(s[r.value + 2..])
  {
    var n := TrailingDigits(s);
    if n >= 1 && |s| >= n + 2 && s[|s| - n - 2] == ' ' && s[|s| - n - 1] == 'P'
    then Some(|s| - n - 2)
    else None
  }

  /** `getPaceRoleDepthFromString`: the digits of a trailing ` P<digits>`, `false` (here `None`) otherwise. */
  function RoleDepth(s: string): (r: Option<nat>)
    ensures r.Some? <==> PaceSuffixStart(s).Some?
  {
    match PaceSuffixStart(s)
    case None => None
    case Some(i) => Some(DigitsValue(s[i + 2..]))
  }

  /** The name without its trailing " P<digits>" suffix; unchanged when it has none. */
  function StripPaceSuffix(s: string): (r: string)
    ensures |r| <= |s| && r == s[..|r|]
    ensures RoleDepth(s).None? ==> r == s
  {
    match PaceSuffixStart(s)
    case None => s
    case Some(i) => s[..i]
  }

  /** A depth is read from exactly the strings of the form `prefix + " P" + digits`, and stripping returns the prefix. */
  lemma {:induction false} RoleDepthOfSuffixed(prefix: string, ds: string)
    requires |ds| >= 1 && AllDigits(ds)
    ensures RoleDepth(prefix + " P" + ds) == Some(DigitsValue(ds))
    ensures StripPaceSuffix(prefix + " P" + ds) == prefix
  {
    var s := prefix + " P" + ds;
    TrailingDigitsOf(prefix + " P", ds);
    assert s[|s| - |ds| - 2] == ' ';
    assert s[|s| - |ds| - 1] == 'P';
    assert s[|prefix| + 2..] == ds;
    assert s[..|prefix|] == prefix;
  }

  /** Conversely, a string with a role depth is its stripped prefix followed by ` P` and digits. */
  lemma RoleDepthShape(s: string)
    requires RoleDepth(s).Some?
    ensures var p := StripPaceSuffix(s);
      && s == p + " P" + s[|p| + 2..]
      && |s[|p| + 2..]| >= 1 && AllDigits(s[|p| + 2..])
      && RoleDepth(s).value == DigitsValue(s[|p| + 2..])
  {
    var p := StripPaceSuffix(s);
    assert s == s[..|p|] + s[|p|..|p| + 2] + s[|p| + 2..];
  }

  lemma {:induction false} TrailingDigitsOf(pre: string, ds: string)
    requires AllDigits(ds)
    requires pre != [] && !IsDigit(pre[|pre| - 1])
    ensures TrailingDigits(pre + ds) == |ds|
  {
    if ds != [] {
      assert (pre + ds)[..|pre + ds| - 1] == pre + ds[..|ds| - 1];
      TrailingDigitsOf(pre, ds[..|ds| - 1]);
    }
  }

  // ---------------------------------------------------------------------------
  // Role names of layers

  /** A template literal renders `undefined` as the word "undefined". */
  function Render(feed: Option<string>): string {
    if feed.Some? then feed.value else "undefined"
  }

  /** The role name of a layer: the feed name ("undefined" when absent), " P" and the depth. */
  function RoleName(feed: Option<string>, depth: nat): string {
    Render(feed) + " P" + NatToString(depth)
  }

  /** The role name of a layer carries its depth and its feed back out. */
  lemma RoleNameRoundTrip(feed: Option<string>, depth: nat)
    ensures RoleDepth(RoleName(feed, depth)) == Some(depth)
    ensures StripPaceSuffix(RoleName(feed, depth)) == Render(feed)
  {
    RoleDepthOfSuffixed(Render(feed), NatToString(depth));
    DigitsRoundTrip(depth);
  }

  /** Two layers of one feed share a role name only when they share a depth. */
  lemma RoleNameInjective(feed: Option<string>, a: nat, b: nat)
    requires RoleName(feed, a) == RoleName(feed, b)
    ensures a == b
  {
    RoleNameRoundTrip(feed, a);
    RoleNameRoundTrip(feed, b);
  }

  // ---------------------------------------------------------------------------
  // Worked examples

  /** "🌿 Ops Team" names the feed "Ops Team". */
  lemma FeedNameExampleSpace()
    ensures FeedName([Marker] + " Ops Team") == Some("Ops Team")
  {
    var a := [Marker] + " Ops Team";
    assert a[2..] == "Ops Team";
    FirstSeparatorAt("Ops Team", 3);
    assert "Ops Team"[..3] + " " + "Ops Team"[4..] == "Ops Team";
  }

  /** "🌿-dev-ops-x" names the feed "dev ops-x": the second dash is kept. */
  lemma FeedNameExampleDashes()
    ensures FeedName([Marker] + "-dev-ops-x") == Some("dev ops-x")
  {
    var b := [Marker] + "-dev-ops-x";
    assert b[2..] == "dev-ops-x";
    FirstSeparatorAt("dev-ops-x", 3);
    assert "dev-ops-x"[..3] + " " + "dev-ops-x"[4..] == "dev ops-x";
  }

  /** The older parser stops at the first whitespace: "🌿 Ops Team" gives "Ops". */
  lemma WorkflowNameExample()
    ensures WorkflowName([Marker] + " Ops Team") == Some("Ops")
  {
    var a := [Marker] + " Ops Team";
    assert a[2..] == "Ops Team";
    NonSpaceRunAt("Ops Team", 3);
    assert "Ops Team"[..3] == "Ops";
    FirstSeparatorAt("Ops", 3);
  }

  lemma FirstSeparatorAt(s: string, i: nat)
    requires i <= |s|
    requires i < |s| ==> IsSeparator(s[i])
    requires forall j :: 0 <= j < i ==> !IsSeparator(s[j])
    ensures FirstSeparator(s) == i
  {
  }

  lemma NonSpaceRunAt(s: string, i: nat)
    requires i <= |s|
    requires i < |s| ==> IsWhitespace(s[i])
    requires forall j :: 0 <= j < i ==> !IsWhitespace(s[j])
    ensures NonSpaceRun(s) == i
  {
  }

  /** `p0` is depth 0: the tag is found, so the depth is defined. */
  lemma ChannelDepthExampleZero()
    ensures ChannelDepth("p0") == Some(0)
  {
    ChannelDepthOfTagged("", "0", "");
    assert "" + "p" + "0" + "" == "p0";
  }

  /** The first `p` followed by digits counts, wherever it stands: `up12-x` is depth 12. */
  lemma ChannelDepthExampleInner()
    ensures ChannelDepth("up12-x") == Some(12)
  {
    ChannelDepthOfTagged("u", "12", "-x");
    assert "u" + "p" + "12" + "-x" == "up12-x";
    assert DigitsValue("12") == 12 by {
      assert "12"[..1] == "1";
      assert DigitsValue("1") == 1 by { assert "1"[..0] == ""; }
    }
  }

  /** The role of feed "Alpha" at depth 2 is "Alpha P2", and it reads back as depth 2. */
  lemma RoleNameExample()
    ensures RoleName(Some("Alpha"), 2) == "Alpha P2"
    ensures RoleDepth("Alpha P2") == Some(2)
  {
    RoleNameRoundTrip(Some("Alpha"), 2);
  }
}
