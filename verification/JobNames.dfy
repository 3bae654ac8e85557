/** Names of the SIG lanes per Kubernetes minor version. */
module JobNames {
  import opened Strings
  import opened Versions

  const SIG_NAMES: seq<string> := ["sig-compute", "sig-network", "sig-operator", "sig-storage"]

  const SERIAL := "sig-compute-serial"

  /** A Kubernetes minor version as it is spelled in job names. */
  datatype Minor = Minor(major: string, minor: string)

  function MinorOf(v: Version): Minor {
    Minor(v.major.text, v.minor.text)
  }

  predicate IsNumeric(m: Minor) {
    AllDigits(m.major) && m.minor != [] && AllDigits(m.minor)
  }

  function LaneName(prefix: string, m: Minor, sig: string): string {
    prefix + m.major + "." + m.minor + "-" + sig
  }

  function CreatePresubmitJobName(m: Minor, sig: string): string {
    LaneName("pull-kubevirt-e2e-k8s-", m, sig)
  }

  function CreatePeriodicJobName(m: Minor, sig: string): string {
    LaneName("periodic-kubevirt-e2e-k8s-", m, sig)
  }

  function CreatePresubmitTargetValue(m: Minor, sig: string): string {
    LaneName("k8s-", m, if sig == "sig-compute" then "sig-compute-parallel" else sig)
  }

  function CreatePeriodicTargetValue(m: Minor, sig: string): string {
    LaneName("k8s-", m, sig)
  }

  lemma HeadAndTail(a: string, sep: char, s: string)
    ensures var x := a + [sep] + s;
            x[0] == (if a == [] then sep else a[0]) && x[1..] == if a == [] then s else a[1..] + [sep] + s
  {
    assert a != [] ==> (a + [sep] + s)[1..] == a[1..] + [sep] + s;
    assert a == [] ==> (a + [sep] + s)[1..] == s;
  }

  lemma {:induction false} FirstSeparatorSplits(a: string, s: string, b: string, t: string, sep: char)
    requires sep !in a && sep !in b && a + [sep] + s == b + [sep] + t
    ensures a == b && s == t
  {
    HeadAndTail(a, sep, s);
    HeadAndTail(b, sep, t);
    if a != [] && b != [] {
      FirstSeparatorSplits(a[1..], s, b[1..], t, sep);
      assert a == [a[0]] + a[1..] && b == [b[0]] + b[1..];
    }
  }

  lemma SamePrefixSameRest(p: string, s: string, t: string)
    requires p + s == p + t
    ensures s == t
  {
    assert (p + s)[|p|..] == s && (p + t)[|p|..] == t;
  }

  /** A lane name determines the release and the SIG, whatever the SIG is called. */
  lemma LaneNamesAreInjective(prefix: string, a: Minor, s: string, b: Minor, t: string)
    requires IsNumeric(a) && IsNumeric(b)
    requires LaneName(prefix, a, s) == LaneName(prefix, b, t)
    ensures a == b && s == t
  {
    NoSeparators(a);
    NoSeparators(b);
    var x, y := a.minor + ['-'] + s, b.minor + ['-'] + t;
    assert LaneName(prefix, a, s) == prefix + (a.major + ['.'] + x);
    assert LaneName(prefix, b, t) == prefix + (b.major + ['.'] + y);
    SamePrefixSameRest(prefix, a.major + ['.'] + x, b.major + ['.'] + y);
    FirstSeparatorSplits(a.major, x, b.major, y, '.');
    FirstSeparatorSplits(a.minor, s, b.minor, t, '-');
  }

  lemma NoSeparators(m: Minor)
    requires IsNumeric(m)
    ensures '.' !in m.major && '-' !in m.minor
  {
    assert forall c | c in m.major :: IsDigit(c);
    assert forall c | c in m.minor :: IsDigit(c);
  }

  /** The release before `v`; Go prints minor -1 for minor 0. */
  function Previous(v: Version): Minor {
    Minor(v.major.text, if v.minor.value == 0 then "-1" else Itoa(v.minor.value - 1))
  }

  /** It is spelled like the release of the same major and the minor one below, where there is one. */
  lemma PreviousIsOneBelow(v: Version, u: Version)
    requires v.IsCanonical() && u.IsCanonical()
    requires u.major.value == v.major.value && u.minor.value + 1 == v.minor.value
    ensures Previous(v) == MinorOf(u)
  {
    CanonicalNumerals(u.major, v.major);
    CanonicalByValue(u.minor.text);
  }

  lemma PreviousIsOther(v: Version, s: string, t: string)
    requires v.IsFaithful()
    ensures CreatePresubmitJobName(Previous(v), s) != CreatePresubmitJobName(MinorOf(v), t)
  {
    var p, m := Previous(v), MinorOf(v);
    if v.minor.value > 0 {
      assert Value(p.minor) == v.minor.value - 1;
      if CreatePresubmitJobName(p, s) == CreatePresubmitJobName(m, t) {
        LaneNamesAreInjective("pull-kubevirt-e2e-k8s-", p, s, m, t);
      }
    } else {
      NoSeparators(m);
      var prefix := "pull-kubevirt-e2e-k8s-" + m.major + ".";
      assert CreatePresubmitJobName(p, s)[|prefix|] == '-';
      assert CreatePresubmitJobName(m, t)[|prefix|] == m.minor[0];
      assert m.minor[0] in m.minor;
    }
  }
}
