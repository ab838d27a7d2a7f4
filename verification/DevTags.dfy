/** The tags of dev snapshots: what identifies a publish run, and reading it back. */
module DevTags {
  import opened Collections
  import opened Characters
  import opened DevPublishPlan

  const DEV_MARK := "-dev-"

  function TagPrefix(packageName: string): string {
    "dev/" + packageName + "/v"
  }

  /** Where the digits at the end of `s` start. */
  function TrailingDigits(s: string): (r: nat)
    ensures r <= |s|
    ensures forall i | r <= i < |s| :: IsDigit(s[i])
    ensures r > 0 ==> !IsDigit(s[r - 1])
  {
    if s == "" || !IsDigit(s[|s| - 1]) then |s| else TrailingDigits(s[..|s| - 1])
  }

  predicate EndsWith(s: string, suffix: string) {
    |suffix| <= |s| && s[|s| - |suffix|..] == suffix
  }

  /** `parseDevTagMetadata`: the digits of the timestamp. */
  function ParseDevTag(packageName: string, tagName: string): Option<string> {
    var k := TrailingDigits(tagName);
    if !(TagPrefix(packageName) <= tagName) || k == |tagName| || !EndsWith(tagName[..k], DEV_MARK) then None
    else Some(tagName[k..])
  }

  lemma {:induction false} TrailingOf(before: string, digits: string)
    requires before != "" && !IsDigit(before[|before| - 1]) && forall i | 0 <= i < |digits| :: IsDigit(digits[i])
    ensures TrailingDigits(before + digits) == |before|
  {
    var s := before + digits;
    if digits == "" {
      assert s == before;
    } else {
      assert s[..|s| - 1] == before + digits[..|digits| - 1];
      TrailingOf(before, digits[..|digits| - 1]);
    }
  }

  /** A tag parses to a timestamp exactly if it is the package's prefix, some text, the mark and the digits. */
  lemma {:induction false} ParseIsPattern(packageName: string, tagName: string, digits: string)
    ensures ParseDevTag(packageName, tagName) == Some(digits) <==>
            && IsNumeral(digits) && TagPrefix(packageName) <= tagName
            && EndsWith(tagName, DEV_MARK + digits)
  {
    if ParseDevTag(packageName, tagName) == Some(digits) {
      ParsedEnds(packageName, tagName);
    }
    if IsNumeral(digits) && EndsWith(tagName, DEV_MARK + digits) {
      EndsInDigits(tagName, digits);
    }
  }

  lemma {:induction false} ParsedEnds(packageName: string, tagName: string)
    requires ParseDevTag(packageName, tagName).Some?
    ensures IsNumeral(ParseDevTag(packageName, tagName).value)
    ensures EndsWith(tagName, DEV_MARK + ParseDevTag(packageName, tagName).value)
  {
    var k := TrailingDigits(tagName);
    var before := tagName[..k - |DEV_MARK|];
    assert tagName == before + tagName[k - |DEV_MARK|..k] + tagName[k..];
  }

  lemma {:induction false} EndsInDigits(tagName: string, digits: string)
    requires IsNumeral(digits) && EndsWith(tagName, DEV_MARK + digits)
    ensures var k := TrailingDigits(tagName);
            tagName[k..] == digits && EndsWith(tagName[..k], DEV_MARK)
  {
    var n := |tagName| - |DEV_MARK + digits|;
    var before := tagName[..n] + DEV_MARK;
    assert tagName == tagName[..n] + (DEV_MARK + digits);
    assert tagName == before + digits;
    TrailingOf(before, digits);
  }

  /** The tag of a stamped package tells its package and its publish run. */
  lemma {:induction false} TagRoundTrips(p: DevPublishPackage, timestamp: string)
    requires IsStamped(p, timestamp) && IsTimestamp(timestamp)
    ensures ParseDevTag(p.workspace.name, p.tagName) == Some(timestamp)
  {
    var prefix := TagPrefix(p.workspace.name);
    assert p.tagName == prefix + p.version;
    assert p.tagName == prefix + p.baseVersion + (DEV_MARK + timestamp);
    ParseIsPattern(p.workspace.name, p.tagName, timestamp);
  }

  /** Snapshots of different publish runs have different versions, whatever the packages. */
  lemma {:induction false} VersionsDiffer(p: DevPublishPackage, t: string, q: DevPublishPackage, u: string)
    requires IsStamped(p, t) && IsStamped(q, u) && IsTimestamp(t) && IsTimestamp(u) && t != u
    ensures p.version != q.version
  {
    VersionEndsIn(p, t);
    VersionEndsIn(q, u);
  }

  lemma {:induction false} VersionEndsIn(p: DevPublishPackage, t: string)
    requires IsStamped(p, t) && IsTimestamp(t)
    ensures p.version[TrailingDigits(p.version)..] == t
  {
    var before := p.baseVersion + DEV_MARK;
    assert p.version == before + t && before[|before| - 1] == '-';
    TrailingOf(before, t);
  }

  /** The version of a snapshot has no slash. */
  lemma {:induction false} VersionHasNoSlash(p: DevPublishPackage, t: string)
    requires IsStamped(p, t) && IsTimestamp(t)
    ensures '/' !in p.version
  {
    var major, minor, patch, suffix :|
      && IsNumeral(major) && IsNumeral(minor) && IsNumeral(patch) && IsSuffix(suffix)
      && p.baseVersion == Dotted(major, minor, patch) && p.workspace.version == p.baseVersion + suffix;
    assert forall c | c in p.version :: c in major || c in minor || c in patch || c in t || c in "." || c in DEV_MARK;
  }

  lemma {:induction false} NoSlashAfter(a: string, v: string, i: nat)
    requires '/' !in v
    ensures |a| < i < |a + "/v" + v| ==> (a + "/v" + v)[i] != '/'
    ensures (a + "/v" + v)[|a|] == '/'
  {
    var s := a + "/v" + v;
    if |a| + 1 < i < |s| {
      assert s[i] == v[i - |a| - 2];
    }
  }

  lemma {:induction false} LastSlash(a: string, v: string, b: string, w: string)
    requires '/' !in v && '/' !in w && a + "/v" + v == b + "/v" + w
    ensures a == b && v == w
  {
    var s, t := a + "/v" + v, b + "/v" + w;
    NoSlashAfter(a, v, |b|);
    NoSlashAfter(b, w, |a|);
    assert s[..|a|] == a && t[..|b|] == b && s[|a| + 2..] == v && t[|b| + 2..] == w;
  }

  /** Different packages or different snapshots have different tags. */
  lemma {:induction false} TagsDiffer(p: DevPublishPackage, t: string, q: DevPublishPackage, u: string)
    requires IsStamped(p, t) && IsStamped(q, u) && IsTimestamp(t) && IsTimestamp(u)
    ensures p.tagName == q.tagName <==> p.workspace.name == q.workspace.name && p.version == q.version
  {
    VersionHasNoSlash(p, t);
    VersionHasNoSlash(q, u);
    if p.tagName == q.tagName {
      var a, b := "dev/" + p.workspace.name, "dev/" + q.workspace.name;
      assert p.tagName == a + "/v" + p.version && q.tagName == b + "/v" + q.version;
      LastSlash(a, p.version, b, q.version);
      assert a[4..] == p.workspace.name && b[4..] == q.workspace.name;
    }
  }
}
