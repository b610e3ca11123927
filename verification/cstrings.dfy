/**
 * C strings as the watcher uses them: `strcmp` ordering, path joining with
 * `snprintf("%s/%s")`, and the "at or under a directory" relation on paths.
 * A C string is a `seq<char>` that holds no NUL character.
 */
module CStrings {

  type Path = seq<char>

  /** `strcmp`: the sign of the first differing character, a proper prefix ranking first. */
  function StrCmp(a: string, b: string): (r: int)
    ensures -1 <= r <= 1
    ensures a == [] && b != [] ==> r == -1
  {
    if a == [] && b == [] then 0
    else if a == [] then -1
    else if b == [] then 1
    else if a[0] < b[0] then -1
    else if a[0] > b[0] then 1
    else StrCmp(a[1..], b[1..])
  }

  lemma {:induction false} StrCmpZero(a: string, b: string)
    ensures StrCmp(a, b) == 0 <==> a == b
  {
    if a != [] && b != [] && a[0] == b[0] {
      StrCmpZero(a[1..], b[1..]);
      if a[1..] == b[1..] {
        assert a == [a[0]] + a[1..] && b == [b[0]] + b[1..];
      }
    }
  }

  lemma {:induction false} StrCmpFlip(a: string, b: string)
    ensures StrCmp(b, a) == -StrCmp(a, b)
  {
    if a != [] && b != [] && a[0] == b[0] {
      StrCmpFlip(a[1..], b[1..]);
    }
  }

  lemma {:induction false} StrCmpTransitive(a: string, b: string, c: string)
    requires StrCmp(a, b) <= 0 && StrCmp(b, c) <= 0
    ensures StrCmp(a, c) <= 0
  {
    if a != [] && b != [] && c != [] && a[0] == b[0] == c[0] {
      StrCmpTransitive(a[1..], b[1..], c[1..]);
    }
  }

  /** The path `snprintf(fullpath, ..., "%s/%s", dir, name)` builds. */
  function Join(dir: Path, name: string): Path {
    dir + "/" + name
  }

  /** `x` names something strictly inside the directory `p`. */
  predicate IsUnder(x: Path, p: Path) {
    |x| > |p| && x[..|p| + 1] == p + "/"
  }

  predicate AtOrUnder(x: Path, p: Path) {
    x == p || IsUnder(x, p)
  }

  lemma JoinIsUnder(p: Path, name: string)
    ensures IsUnder(Join(p, name), p)
  {
    assert Join(p, name)[..|p| + 1] == p + "/";
  }

  /** What lies at or under a child of `p` lies under `p`. */
  lemma UnderChild(x: Path, p: Path, name: string)
    requires AtOrUnder(x, Join(p, name))
    ensures IsUnder(x, p)
  {
    var c := Join(p, name);
    assert c[..|p| + 1] == p + "/";
    if x != c {
      assert x[..|p| + 1] == x[..|c| + 1][..|p| + 1];
    }
  }

  /** The first '/' at or after `b` in `x`, or `|x|`. */
  function SlashFrom(x: Path, b: nat): (r: nat)
    requires b <= |x|
    ensures b <= r <= |x|
    ensures forall i :: b <= i < r ==> x[i] != '/'
    ensures r < |x| ==> x[r] == '/'
    decreases |x| - b
  {
    if b == |x| || x[b] == '/' then b else SlashFrom(x, b + 1)
  }

  /** The path component of `x` that starts at `b`. */
  function Component(x: Path, b: nat): string
    requires b <= |x|
  {
    x[b..SlashFrom(x, b)]
  }

  /** For a child name without '/', "at or under p/name" means "under p, with first component name". */
  lemma AtOrUnderChild(x: Path, p: Path, name: string)
    requires '/' !in name
    ensures AtOrUnder(x, Join(p, name)) <==> IsUnder(x, p) && Component(x, |p| + 1) == name
  {
    var c, b := Join(p, name), |p| + 1;
    assert c[..b] == p + "/" && c[b..] == name;
    if AtOrUnder(x, c) {
      UnderChild(x, p, name);
      assert x[b..|c|] == name by {
        if x != c { assert x[..|c| + 1][b..|c|] == x[b..|c|]; }
      }
      assert forall i :: b <= i < |c| ==> x[i] != '/' by {
        forall i | b <= i < |c| ensures x[i] != '/' { assert x[i] == name[i - b]; }
      }
      assert |c| < |x| ==> x[|c|] == '/' by {
        if |c| < |x| { assert x[..|c| + 1][|c|] == x[|c|]; }
      }
      assert SlashFrom(x, b) == |c|;
    }
    if IsUnder(x, p) && Component(x, b) == name {
      var r := SlashFrom(x, b);
      assert r == b + |name|;
      assert x[..r] == c by { assert x[..r] == x[..b] + x[b..r]; assert x[..b] == x[..|p| + 1]; }
      if r < |x| {
        assert x[..|c| + 1] == x[..r] + [x[r]];
      } else {
        assert x == x[..r];
      }
    }
  }

  /** Two differently named children of one directory share nothing at or under them. */
  lemma SiblingsDisjoint(x: Path, p: Path, n: string, m: string)
    requires n != m && '/' !in n && '/' !in m
    requires AtOrUnder(x, Join(p, n))
    ensures !AtOrUnder(x, Join(p, m))
  {
    AtOrUnderChild(x, p, n);
    AtOrUnderChild(x, p, m);
  }

  /**
   * '.' (0x2E) ranks below '/' (0x2F), so a sibling with a dotted name sorts
   * between a directory and that directory's own children.
   */
  lemma DottedSiblingSortsBetween()
    ensures StrCmp("/a", "/a.old") < 0 && StrCmp("/a.old", "/a/b") < 0
    ensures IsUnder("/a/b", "/a") && !AtOrUnder("/a.old", "/a")
  {
    assert "/a.old"[1..] == "a.old" && "/a/b"[1..] == "a/b";
    assert "a.old"[1..] == ".old" && "a/b"[1..] == "/b";
    assert "/a/b"[..3] == "/a/";
    assert "/a.old"[..3] == "/a.";
  }
}
