/** Which versions share a copy, which files are looked at, and what a unit remembers of its file. */
module ApplianceNames {
  import opened Prelude
  import opened Appliance

  const SHA256 := "sha256:"

  /**
   * Two versions with full digests are kept in one copy exactly when they are
   * of one spec and their digests begin with the same twelve digits; so no
   * copy is shared between specs.
   */
  lemma SharePathExactly(a: string, x: string, b: string, y: string)
    requires |x| >= 12 && |y| >= 12
    ensures Path(a, SHA256 + x) == Path(b, SHA256 + y) <==> a == b && x[..12] == y[..12]
  {
    ShortOf(x);
    ShortOf(y);
    hide Short;
    var p, q := Path(a, SHA256 + x), Path(b, SHA256 + y);
    PathParts(a, x);
    PathParts(b, y);
    hide Path;
    if p == q { assert |a| == |b|; }
  }

  lemma ShortOf(x: string)
    requires |x| >= 12
    ensures Short(SHA256 + x) == x[..12]
  {
    assert (SHA256 + x)[7..] == x;
    assert |x| == 12 ==> x[..12] == x;
  }

  lemma PathParts(a: string, x: string)
    requires |x| >= 12 && Short(SHA256 + x) == x[..12]
    ensures var p := Path(a, SHA256 + x); |p| == |a| + 18 && p[..|a|] == a && p[|a| + 1..|a| + 13] == x[..12]
    ensures Path(a, SHA256 + x) == a + "-" + x[..12] + ".json"
  {
    hide Short;
    var p := a + "-" + x[..12] + ".json";
    assert p[..|a|] == a;
    assert p[|a| + 1..|a| + 13] == x[..12];
  }

  // ----- Names ---------------------------------------------------------------

  predicate Inner(s: string) {
    forall i :: 0 <= i < |s| ==> 'a' <= s[i] <= 'z' || '0' <= s[i] <= '9' || s[i] == '-'
  }

  predicate Outer(c: char) { 'a' <= c <= 'z' || '0' <= c <= '9' }

  /** One letter or digit, or two with at most 61 letters, digits and dashes between. */
  ghost predicate Label(name: string) {
    exists c, s, d :: LabelOf(name, c, s, d)
  }

  predicate LabelOf(name: string, c: char, s: string, d: char) {
    Outer(c) && (name == [c] || (name == [c] + s + [d] && |s| <= 61 && Inner(s) && Outer(d)))
  }

  lemma ValidNameExactly(name: string)
    ensures ValidName(name) <==> Label(name)
  {
    if ValidName(name) { ValidIsLabel(name); }
    if Label(name) {
      var c, s, d :| LabelOf(name, c, s, d);
      LabelIsValid(name, c, s, d);
    }
    hide ValidName, LabelOf;
  }

  lemma ValidIsLabel(name: string)
    requires ValidName(name)
    ensures Label(name)
  {
    var c, d := name[0], name[|name| - 1];
    if |name| == 1 {
      assert LabelOf(name, c, "", d);
    } else {
      var s := name[1..|name| - 1];
      assert name == [c] + s + [d];
      assert LabelOf(name, c, s, d);
    }
  }

  lemma LabelIsValid(name: string, c: char, s: string, d: char)
    requires LabelOf(name, c, s, d)
    ensures ValidName(name)
  {
    if name != [c] {
      forall i | 0 <= i < |name| ensures NameChar(name[i]) || name[i] == '-' {
        if 0 < i < |name| - 1 { assert name[i] == s[i - 1]; }
      }
    }
  }

  // ----- What a unit remembers -----------------------------------------------

  /**
   * After a look at a verified version the unit knows the file's digest and no
   * refusal of it, unless its copy could not be written.  A version given up
   * is remembered until the file changes, and no longer.
   */
  lemma Remembers(u: Unit, p0: Procs, v: Unit, p1: Procs, name: string, digest: string, now: int, timeout: int, answers: nat -> bool, copied: bool)
    requires Outcome(u, p0, v, p1, name, digest, now, timeout, answers, copied)
    ensures v.fileDigest == digest && (v.invalid == "" <==> copied || Known(u, p0, digest))
    ensures v.failed != "" ==> v.failed == digest || (v.failed == u.failed && u.fileDigest == digest)
    ensures u.fileDigest == digest ==> v.failed == u.failed || v.failed == digest
    ensures v.failed == digest != u.failed && digest != "" ==> Runs(p0, u.next, digest) && now - p0[u.next.value].started >= timeout
  {
  }
}
