/** `canonical_name`: turns a user-supplied name into a cluster object name.
    The pipeline is, in this order: lower-case, replace `_`, space and `.`
    by `-`, strip surrounding whitespace, replace `/` by `-`, and keep the
    first `max_len` characters. Characters are treated as ASCII. */
module Names {

  /** The default `max_len`: the length limit of a cluster object name. */
  const MaxNameLength: int := 63

  predicate IsUpper(c: char) {
    'A' <= c <= 'Z'
  }

  /** `str.isspace()` on ASCII: tab, line feed, vertical tab, form feed,
      carriage return, the separators 0x1C to 0x1F, and space. */
  predicate IsWhitespace(c: char) {
    var n := c as int;
    (9 <= n <= 13) || (28 <= n <= 32)
  }

  /** `str.lower()` on one ASCII character. */
  function LowerChar(c: char): (d: char)
    ensures !IsUpper(d)
    ensures IsUpper(c) ==> 'a' <= d <= 'z'
    ensures !IsUpper(c) ==> d == c
  {
    if IsUpper(c) then (c as int + 32) as char else c
  }

  function Lower(s: string): (r: string)
    ensures |r| == |s|
    ensures forall i :: 0 <= i < |s| ==> r[i] == LowerChar(s[i])
  {
    seq(|s|, i requires 0 <= i < |s| => LowerChar(s[i]))
  }

  /** `str.replace(target, replacement)` for one-character arguments. */
  function Replace(s: string, target: char, replacement: char): (r: string)
    ensures |r| == |s|
    ensures forall i :: 0 <= i < |s| ==> r[i] == if s[i] == target then replacement else s[i]
  {
    seq(|s|, i requires 0 <= i < |s| => if s[i] == target then replacement else s[i])
  }

  /** The number of whitespace characters `strip()` removes at the front. */
  function LeadingWhitespace(s: string): (k: nat)
    ensures k <= |s|
    ensures forall i :: 0 <= i < k ==> IsWhitespace(s[i])
    ensures k < |s| ==> !IsWhitespace(s[k])
  {
    if |s| > 0 && IsWhitespace(s[0]) then 1 + LeadingWhitespace(s[1..]) else 0
  }

  /** Where the whitespace that `strip()` removes at the back begins. */
  function TrailingStart(s: string): (e: nat)
    ensures e <= |s|
    ensures forall i :: e <= i < |s| ==> IsWhitespace(s[i])
    ensures e > 0 ==> !IsWhitespace(s[e - 1])
  {
    if |s| > 0 && IsWhitespace(s[|s| - 1]) then TrailingStart(s[..|s| - 1]) else |s|
  }

  /** `str.strip()` with no argument: the text between the leading and the
      trailing whitespace. */
  function Strip(s: string): (r: string)
    ensures LeadingWhitespace(s) + |r| <= |s| && r == s[LeadingWhitespace(s)..LeadingWhitespace(s) + |r|]
    ensures forall i :: LeadingWhitespace(s) + |r| <= i < |s| ==> IsWhitespace(s[i])
    ensures r == [] || (!IsWhitespace(r[0]) && !IsWhitespace(r[|r| - 1]))
    ensures (s == [] || (!IsWhitespace(s[0]) && !IsWhitespace(s[|s| - 1]))) ==> r == s
  {
    var k, e := LeadingWhitespace(s), TrailingStart(s);
    if k < e then s[k..e] else []
  }

  /** The strip keeps inner spaces and removes the trailing tab. */
  lemma StripExample()
    ensures Strip("a b\t") == "a b"
  {
    var s := "a b\t";
    assert LeadingWhitespace(s) == 0;
    assert s[..3] == "a b";
    assert TrailingStart(s) == TrailingStart("a b") == 3;
  }

  /** The slice `s[0:stop]`: a negative `stop` counts from the end, and the
      bounds are clamped to the string. */
  function SlicePrefix(s: string, stop: int): (r: string)
    ensures r <= s
    ensures stop >= 0 ==> |r| == if stop < |s| then stop else |s|
  {
    if stop >= 0 then (if stop < |s| then s[..stop] else s)
    else if |s| + stop > 0 then s[..|s| + stop]
    else []
  }

  /** The first four steps: lower-case, then `_`, space and `.` become `-`. */
  function Dashed(name: string): (r: string)
    ensures |r| == |name|
    ensures Dashless(r)
    ensures OnlySpaceWhitespace(name) ==> NoWhitespace(r)
  {
    var lowered := Lower(name);
    assert forall i :: 0 <= i < |name| && IsWhitespace(lowered[i]) ==> IsWhitespace(name[i]);
    Replace(Replace(Replace(lowered, '_', '-'), ' ', '-'), '.', '-')
  }

  /** The string `canonical_name` computes before its final slice. */
  function Substituted(name: string): string {
    Replace(Strip(Dashed(name)), '/', '-')
  }

  /** No `_`, space, `.` or upper-case letter: what the first four steps leave. */
  predicate Dashless(s: string) {
    forall i :: 0 <= i < |s| ==> s[i] != '_' && s[i] != ' ' && s[i] != '.' && !IsUpper(s[i])
  }

  /** A cluster-legal character: not `_`, space, `.`, `/` or an upper-case letter. */
  predicate IsLegalChar(c: char) {
    c != '_' && c != ' ' && c != '.' && c != '/' && !IsUpper(c)
  }

  /** A cluster-legal name. */
  predicate IsLegal(s: string) {
    forall i :: 0 <= i < |s| ==> IsLegalChar(s[i])
  }

  /** No whitespace character other than space. */
  predicate OnlySpaceWhitespace(s: string) {
    forall i :: 0 <= i < |s| && IsWhitespace(s[i]) ==> s[i] == ' '
  }

  predicate NoWhitespace(s: string) {
    forall i :: 0 <= i < |s| ==> !IsWhitespace(s[i])
  }

  /** The strip keeps a slice of its input, and with it these properties. */
  lemma StripKeeps(s: string)
    ensures Dashless(s) ==> Dashless(Strip(s))
    ensures NoWhitespace(s) ==> NoWhitespace(Strip(s))
  {
    SliceKeeps(s, LeadingWhitespace(s), LeadingWhitespace(s) + |Strip(s)|);
  }

  lemma SliceKeeps(s: string, lo: nat, hi: nat)
    requires lo <= hi <= |s|
    ensures Dashless(s) ==> Dashless(s[lo..hi])
    ensures NoWhitespace(s) ==> NoWhitespace(s[lo..hi])
  {
    var t := s[lo..hi];
    assert forall i :: 0 <= i < |t| ==> t[i] == s[lo + i];
  }

  /** Replacing `/` by `-` makes a dashless name legal, and adds no whitespace. */
  lemma SlashReplacedLegal(s: string)
    requires Dashless(s)
    ensures IsLegal(Replace(s, '/', '-'))
    ensures NoWhitespace(s) ==> NoWhitespace(Replace(s, '/', '-'))
  {
  }

  lemma SubstitutedChars(name: string)
    ensures IsLegal(Substituted(name))
    ensures OnlySpaceWhitespace(name) ==> NoWhitespace(Substituted(name))
  {
    StripKeeps(Dashed(name));
    SlashReplacedLegal(Strip(Dashed(name)));
  }

  function CanonicalName(name: string, maxLen: int): (r: string)
    ensures r <= Substituted(name)
    ensures maxLen >= 0 ==> |r| <= maxLen
    ensures maxLen >= 0 ==> |r| == if maxLen < |Substituted(name)| then maxLen else |Substituted(name)|
    ensures |r| <= |name|
    ensures IsLegal(r)
    ensures OnlySpaceWhitespace(name) ==> NoWhitespace(r)
  {
    SubstitutedChars(name);
    PrefixChars(SlicePrefix(Substituted(name), maxLen), Substituted(name));
    SlicePrefix(Substituted(name), maxLen)
  }

  /** A prefix keeps the character properties of the whole. */
  lemma PrefixChars(r: string, t: string)
    requires r <= t
    ensures IsLegal(t) ==> IsLegal(r)
    ensures NoWhitespace(t) ==> NoWhitespace(r)
  {
    assert forall i :: 0 <= i < |r| ==> r[i] == t[i];
  }

  /** A legal name without whitespace that already fits is left unchanged. */
  lemma CanonicalFixpoint(s: string, maxLen: int)
    requires IsLegal(s) && NoWhitespace(s) && |s| <= maxLen
    ensures CanonicalName(s, maxLen) == s
  {
    assert Lower(s) == s;
    assert Replace(s, '_', '-') == s;
    assert Replace(s, ' ', '-') == s;
    assert Replace(s, '.', '-') == s;
    assert Strip(s) == s;
    assert Replace(s, '/', '-') == s;
  }

  /** Canonicalising twice gives the same name as once, provided the only
      whitespace in the input is the space character. */
  lemma CanonicalIdempotent(name: string, maxLen: int)
    requires maxLen >= 0
    requires OnlySpaceWhitespace(name)
    ensures CanonicalName(CanonicalName(name, maxLen), maxLen) == CanonicalName(name, maxLen)
  {
    CanonicalFixpoint(CanonicalName(name, maxLen), maxLen);
  }

  /** Truncation comes after the strip, so it can leave a trailing tab that a
      second pass strips: the function is not idempotent in general. */
  lemma TruncationExposesWhitespace()
    ensures CanonicalName("a\tb", 2) == "a\t"
    ensures CanonicalName(CanonicalName("a\tb", 2), 2) == "a"
  {
    TabInsideIsKept();
    CanonicalNameIsSlice("a\tb", 2);
    assert SlicePrefix("a\tb", 2) == "a\t";
    TrailingTabIsStripped();
    CanonicalNameIsSlice("a\t", 2);
    assert SlicePrefix("a", 2) == "a";
  }

  lemma CanonicalNameIsSlice(name: string, maxLen: int)
    ensures CanonicalName(name, maxLen) == SlicePrefix(Substituted(name), maxLen)
  {
  }

  lemma TabInsideIsKept()
    ensures Substituted("a\tb") == "a\tb"
  {
    var s := "a\tb";
    TabInsideIsDashed();
    assert Strip(s) == s;
    assert Replace(s, '/', '-') == s;
  }

  lemma TabInsideIsDashed()
    ensures Dashed("a\tb") == "a\tb"
  {
    var s := "a\tb";
    assert Lower(s) == s;
    assert Replace(s, '_', '-') == s;
    assert Replace(s, ' ', '-') == s;
    assert Replace(s, '.', '-') == s;
  }

  lemma TrailingTabIsStripped()
    ensures Substituted("a\t") == "a"
  {
    var t := "a\t";
    assert Lower(t) == t;
    assert Dashed(t) == t;
    assert LeadingWhitespace(t) == 0;
    assert t[..1] == "a";
    assert TrailingStart(t) == TrailingStart("a") == 1;
    assert Strip(t) == "a";
  }

  lemma CanonicalNameExample()
    ensures CanonicalName("My_Job Name.v1", MaxNameLength) == "my-job-name-v1"
  {
    ExampleDashed();
    ExampleSettled();
  }

  lemma ExampleDashed()
    ensures Dashed("My_Job Name.v1") == "my-job-name-v1"
  {
    ExampleLowered();
    ExampleReplaced();
  }

  lemma ExampleLowered()
    ensures Lower("My_Job Name.v1") == "my_job name.v1"
  {
  }

  lemma ExampleReplaced()
    ensures Replace(Replace(Replace("my_job name.v1", '_', '-'), ' ', '-'), '.', '-') == "my-job-name-v1"
  {
    assert Replace("my_job name.v1", '_', '-') == "my-job name.v1";
    assert Replace("my-job name.v1", ' ', '-') == "my-job-name.v1";
    assert Replace("my-job-name.v1", '.', '-') == "my-job-name-v1";
  }

  lemma ExampleSettled()
    ensures Replace(Strip("my-job-name-v1"), '/', '-') == "my-job-name-v1"
  {
    assert Strip("my-job-name-v1") == "my-job-name-v1";
    assert Replace("my-job-name-v1", '/', '-') == "my-job-name-v1";
  }
}
