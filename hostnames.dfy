/**
  String handling over hostnames: recognising a wildcard registration ("*." prefix)
  and the one-label strip that wildcard resolution performs. The strip is modelled the
  way the source computes it, with Go's strings.Split and strings.Join on ".", and the
  lemmas below prove that this equals "the text after the first dot".
 */
module Hostnames {
  import opened Wrappers

  const Dot: char := '.'
  const WildcardPrefix: string := "*."

  /** strings.HasPrefix(hostname, "*.") */
  predicate IsWildcardPattern(hostname: string)
    ensures IsWildcardPattern(hostname) <==> |hostname| >= |WildcardPrefix| && hostname[..|WildcardPrefix|] == WildcardPrefix
  {
    |hostname| >= 2 && hostname[0] == '*' && hostname[1] == Dot
  }

  /** hostname[2:] for a wildcard registration: the suffix the pattern is keyed by. */
  function WildcardSuffix(hostname: string): (suffix: string)
    requires IsWildcardPattern(hostname)
    ensures WildcardPrefix + suffix == hostname
  {
    assert hostname == hostname[..2] + hostname[2..];
    hostname[2..]
  }

  /** strings.Split(s, sep) for a one-character separator: never empty, and
      no part contains the separator. Split("", sep) is [""]. */
  function Split(s: string, sep: char): (parts: seq<string>)
    ensures |parts| >= 1
    ensures forall i :: 0 <= i < |parts| ==> sep !in parts[i]
    decreases |s|
  {
    if s == [] then [[]]
    else
      var rest := Split(s[1..], sep);
      if s[0] == sep then [[]] + rest
      else [[s[0]] + rest[0]] + rest[1..]
  }

  /** strings.Join(parts, sep) for a one-character separator. */
  function Join(parts: seq<string>, sep: char): (s: string)
    ensures |parts| == 0 ==> s == []
    ensures |parts| >= 1 ==> parts[0] <= s
  {
    if |parts| == 0 then []
    else if |parts| == 1 then parts[0]
    else parts[0] + [sep] + Join(parts[1..], sep)
  }

  /** Position of the first occurrence of `c` in `s`. */
  ghost function IndexOf(s: string, c: char): (i: nat)
    requires c in s
    ensures i < |s| && s[i] == c && c !in s[..i]
  {
    if s[0] == c then 0 else 1 + IndexOf(s[1..], c)
  }

  /** A string without the separator splits into itself alone. */
  lemma {:induction false} SplitWithoutSeparator(s: string, sep: char)
    requires sep !in s
    ensures Split(s, sep) == [s]
    decreases |s|
  {
    if s != [] {
      SplitWithoutSeparator(s[1..], sep);
      assert [s[0]] + s[1..] == s;
    }
  }

  /** Splitting at the first separator: the first part is the label before it,
      the rest is the split of what follows it. */
  lemma {:induction false} SplitAfterLabel(firstLabel: string, rest: string, sep: char)
    requires sep !in firstLabel
    ensures Split(firstLabel + [sep] + rest, sep) == [firstLabel] + Split(rest, sep)
    decreases |firstLabel|
  {
    var s := firstLabel + [sep] + rest;
    if firstLabel == [] {
      assert s[0] == sep && s[1..] == rest;
    } else {
      assert s[0] == firstLabel[0] && s[0] != sep;
      assert s[1..] == firstLabel[1..] + [sep] + rest;
      SplitAfterLabel(firstLabel[1..], rest, sep);
      assert [firstLabel[0]] + firstLabel[1..] == firstLabel;
    }
  }

  /** Join undoes Split: strings.Join(strings.Split(s, sep), sep) == s. */
  lemma {:induction false} JoinSplit(s: string, sep: char)
    ensures Join(Split(s, sep), sep) == s
    decreases |s|
  {
    if s != [] {
      var rest := Split(s[1..], sep);
      JoinSplit(s[1..], sep);
      if s[0] == sep {
        assert Join(Split(s, sep), sep) == [] + [sep] + Join(rest, sep);
        assert [sep] + s[1..] == s;
      } else if |rest| == 1 {
        assert Split(s, sep) == [[s[0]] + rest[0]];
        assert [s[0]] + s[1..] == s;
      } else {
        var parts := Split(s, sep);
        assert parts[1..] == rest[1..];
        assert Join(parts, sep) == ([s[0]] + rest[0]) + [sep] + Join(rest[1..], sep);
        assert Join(rest, sep) == rest[0] + [sep] + Join(rest[1..], sep);
        assert [s[0]] + s[1..] == s;
      }
    }
  }

  /** Splitting on the dot yields more than one part exactly when there is a dot, and
      the parts after the first join back into the text after the first dot. */
  lemma SplitStrip(hostname: string)
    ensures |Split(hostname, Dot)| > 1 <==> Dot in hostname
    ensures Dot in hostname ==>
      Join(Split(hostname, Dot)[1..], Dot) == hostname[IndexOf(hostname, Dot) + 1..]
  {
    if Dot in hostname {
      var i := IndexOf(hostname, Dot);
      var firstLabel, rest := hostname[..i], hostname[i + 1..];
      assert hostname == firstLabel + [Dot] + rest;
      SplitAfterLabel(firstLabel, rest, Dot);
      assert Split(hostname, Dot)[1..] == Split(rest, Dot);
      JoinSplit(rest, Dot);
    } else {
      SplitWithoutSeparator(hostname, Dot);
    }
  }

  /** The domain a wildcard lookup uses for `hostname`: with
      parts := strings.Split(hostname, "."), it is strings.Join(parts[1:], ".")
      when len(parts) > 1, and there is none otherwise. So a hostname without a dot
      has none, and otherwise the domain is what follows the first dot: exactly one
      dot-free label is stripped. */
  function WildcardDomain(hostname: string): (domain: Option<string>)
    ensures domain.None? <==> Dot !in hostname
    ensures domain.Some? ==>
      |domain.value| < |hostname| &&
      var firstLabel := hostname[..|hostname| - |domain.value| - 1];
      Dot !in firstLabel && hostname == firstLabel + [Dot] + domain.value
  {
    SplitStrip(hostname);
    assert Dot in hostname ==> hostname == hostname[..IndexOf(hostname, Dot)] + [Dot] + hostname[IndexOf(hostname, Dot) + 1..];
    var parts := Split(hostname, Dot);
    if |parts| > 1 then Some(Join(parts[1..], Dot)) else None
  }

  /** The wildcard domain of "label.domain", for a dot-free label, is "domain". */
  lemma WildcardDomainOf(firstLabel: string, domain: string)
    requires Dot !in firstLabel
    ensures WildcardDomain(firstLabel + [Dot] + domain) == Some(domain)
  {
    var parts := Split(firstLabel + [Dot] + domain, Dot);
    SplitAfterLabel(firstLabel, domain, Dot);
    assert parts[1..] == Split(domain, Dot);
    JoinSplit(domain, Dot);
  }
}
