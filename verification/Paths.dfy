/** Slash-separated paths, as byte strings ('/' is never part of a longer UTF-8 sequence). */
module Paths {
  import opened Bytes

  const DOTDOT: bytes := [DOT, DOT]

  /** Position of the first slash, or the length when there is none. */
  function FirstSlash(p: bytes): (i: nat)
    ensures i <= |p| && (i < |p| ==> p[i] == SLASH)
    ensures forall j :: 0 <= j < i ==> p[j] != SLASH
  {
    if p == [] || p[0] == SLASH then 0 else 1 + FirstSlash(p[1..])
  }

  /** `p.split('/')[0]` */
  function First(p: bytes): (r: bytes)
    ensures r <= p && SLASH !in r
  {
    p[..FirstSlash(p)]
  }

  /** `p.split('/')` */
  function Split(p: bytes): (r: seq<bytes>)
    ensures r != []
  {
    if p == [] then [[]] else AddByte(p[0], Split(p[1..]))
  }

  /** The components after one more byte in front. */
  function AddByte(b: byte, parts: seq<bytes>): (r: seq<bytes>)
    requires parts != []
    ensures r != []
  {
    if b == SLASH then [[]] + parts else [[b] + parts[0]] + parts[1..]
  }

  lemma AddByteJoin(b: byte, s: seq<bytes>, t: seq<bytes>)
    requires s != []
    ensures AddByte(b, s + t) == AddByte(b, s) + t
  {
    assert (s + t)[0] == s[0] && (s + t)[1..] == s[1..] + t;
  }

  lemma FirstOf(root: bytes, rest: bytes)
    requires SLASH !in root && (rest == [] || rest[0] == SLASH)
    ensures First(root + rest) == root
  {
    var p := root + rest;
    assert forall j :: 0 <= j < |root| ==> p[j] == root[j] && root[j] in root;
    assert rest != [] ==> p[|root|] == rest[0];
    assert FirstSlash(p) == |root|;
  }

  /** Joining with a slash concatenates the components. */
  lemma {:induction false} SplitJoin(a: bytes, b: bytes)
    ensures Split(a + [SLASH] + b) == Split(a) + Split(b)
  {
    hide AddByte;
    var p := a + [SLASH] + b;
    if a == [] {
      assert p[0] == SLASH && p[1..] == b;
      SlashFirst(Split(b));
    } else {
      assert p[0] == a[0] && p[1..] == a[1..] + [SLASH] + b;
      SplitJoin(a[1..], b);
      AddByteJoin(a[0], Split(a[1..]), Split(b));
    }
  }

  lemma SlashFirst(parts: seq<bytes>)
    requires parts != []
    ensures AddByte(SLASH, parts) == [[]] + parts
  {
  }

  lemma {:induction false} SplitPlain(p: bytes)
    requires SLASH !in p
    ensures Split(p) == [p]
  {
    if p != [] {
      assert p[0] in p;
      SplitPlain(p[1..]);
      assert [p[0]] + p[1..] == p;
    }
  }

  lemma SlashJoins(p: bytes, i: nat)
    requires i < |p| && p[i] == SLASH
    ensures p == p[..i] + [SLASH] + p[i + 1..]
  {
  }

  lemma FirstPlain(p: bytes)
    ensures SLASH !in p[..FirstSlash(p)]
  {
    hide FirstSlash;
  }

  /** The first component, and the components of what follows its slash. */
  lemma SplitFirst(p: bytes)
    ensures var i := FirstSlash(p);
      Split(p) == if i == |p| then [p] else [p[..i]] + Split(p[i + 1..])
  {
    hide Split, FirstSlash;
    var i := FirstSlash(p);
    var head := p[..i];
    FirstPlain(p);
    SplitPlain(head);
    if i < |p| {
      SlashJoins(p, i);
      SplitJoin(head, p[i + 1..]);
    } else {
      assert head == p;
    }
  }

  /** The name stands in the path between slashes or the ends. */
  ghost predicate StandsAt(path: bytes, i: nat, j: nat, name: bytes) {
    && i <= j <= |path| && path[i..j] == name
    && (i == 0 || path[i - 1] == 0x2f) && (j == |path| || path[j] == 0x2f)
  }

  /** The path has the name as a whole component. */
  ghost predicate HasName(path: bytes, name: bytes) {
    exists i: nat, j: nat :: StandsAt(path, i, j, name)
  }

  lemma {:induction false} ComponentStands(p: bytes, name: bytes)
    requires name in Split(p)
    ensures HasName(p, name)
    decreases |p|
  {
    hide Split, FirstSlash;
    var k := FirstSlash(p);
    SplitFirst(p);
    if name == p[..k] {
      assert StandsAt(p, 0, k, name);
    } else {
      var rest := p[k + 1..];
      ComponentStands(rest, name);
      var i: nat, j: nat :| StandsAt(rest, i, j, name);
      assert p[k + 1 + i..k + 1 + j] == rest[i..j];
      assert StandsAt(p, k + 1 + i, k + 1 + j, name);
    }
  }

  lemma StandingIsComponent(p: bytes, i: nat, j: nat, name: bytes)
    requires StandsAt(p, i, j, name) && SLASH !in name
    ensures name in Split(p)
  {
    hide Split;
    var tail := p[i..];
    assert tail[..j - i] == name;
    SplitPlain(name);
    if j < |p| {
      assert tail == name + [SLASH] + p[j + 1..];
      SplitJoin(name, p[j + 1..]);
    } else {
      assert tail == name;
    }
    assert Split(tail)[0] == name;
    if i > 0 {
      assert p == p[..i - 1] + [SLASH] + tail;
      SplitJoin(p[..i - 1], tail);
      assert Split(p)[|Split(p[..i - 1])|] == name;
    } else {
      assert tail == p;
    }
  }

  /** Components, by positions alone. */
  lemma ComponentsByPosition(p: bytes, name: bytes)
    requires SLASH !in name
    ensures name in Split(p) <==> HasName(p, name)
  {
    if name in Split(p) {
      ComponentStands(p, name);
    }
    if HasName(p, name) {
      var i: nat, j: nat :| StandsAt(p, i, j, name);
      StandingIsComponent(p, i, j, name);
    }
  }

  function Slashes(p: bytes): set<nat> {
    set i: nat | i < |p| && p[i] == 0x2f
  }

  /** One component more than slashes. */
  lemma {:induction false} ComponentCount(p: bytes)
    ensures |Split(p)| == 1 + |Slashes(p)|
  {
    if p == [] {
      assert Slashes(p) == {};
    } else {
      var init, last := p[..|p| - 1], p[|p| - 1];
      ComponentCount(init);
      if last == SLASH {
        SplitTrailingSlash(init);
        assert p == init + [SLASH];
        assert Slashes(p) == Slashes(init) + {|init|};
      } else {
        SplitLast(init, last);
        assert p == init + [last];
        assert Slashes(p) == Slashes(init);
      }
    }
  }

  lemma {:induction false} SplitLast(p: bytes, b: byte)
    requires b != SLASH
    ensures |Split(p + [b])| == |Split(p)|
  {
    if p == [] {
      assert p + [b] == [b] && [b][1..] == [];
    } else {
      assert (p + [b])[1..] == p[1..] + [b];
      SplitLast(p[1..], b);
    }
  }

  /** A trailing slash only adds an empty last component. */
  lemma SplitTrailingSlash(p: bytes)
    ensures Split(p + [SLASH]) == Split(p) + [[]]
  {
    SplitJoin(p, []);
    assert p + [SLASH] + [] == p + [SLASH];
  }

  predicate EndsWithSlash(p: bytes) {
    p != [] && p[|p| - 1] == SLASH
  }

  /** `p.split('/').includes('..')` */
  predicate HasDotDot(p: bytes) {
    DOTDOT in Split(p)
  }

  predicate LeadingDotSlash(p: bytes) {
    |p| >= 2 && p[0] == DOT && p[1] == SLASH
  }

  /** `p.replace(/^\.\/+/, '')`: one leading "./", however many slashes it has. */
  function CleanPath(p: bytes): (r: bytes)
    ensures if LeadingDotSlash(p) then |r| <= |p| - 2 else r == p
  {
    if LeadingDotSlash(p) then StripLeading(p[2..], SLASH) else p
  }

  lemma {:induction false} StripsAll(s: bytes, b: byte) returns (k: nat)
    ensures k <= |s| && StripLeading(s, b) == s[k..]
    ensures forall i :: 0 <= i < k ==> s[i] == b
  {
    k := 0;
    if s != [] && s[0] == b {
      k := StripsAll(s[1..], b);
      k := k + 1;
    }
  }

  /** "./" and all slashes after it go; any other path stays. So "./.gitignore" is ".gitignore". */
  lemma CleanPathMeans(p: bytes) returns (k: nat)
    ensures k <= |p| && CleanPath(p) == p[k..]
    ensures k > 0 <==> |p| >= 2 && p[0] == 0x2e && p[1] == 0x2f
    ensures k > 0 ==> (forall i :: 1 <= i < k ==> p[i] == 0x2f) && (k < |p| ==> p[k] != 0x2f)
  {
    k := 0;
    if LeadingDotSlash(p) {
      k := StripsAll(p[2..], SLASH);
      assert p[2..][k..] == p[k + 2..];
      k := k + 2;
    }
  }
}
