/** Where a received file may be written (modules/common/src/TransferChannel.cpp, IsSubpath and
    BuildSafeReceivePath), on POSIX paths.  A path is the sequence of its components; the
    canonicalisation against the real file system is an argument, because symbolic links can
    make it return anything. */
module SafePath {
  import opened Packable

  type Name = seq<byte>
  type Path = seq<Name>

  const SLASH: byte := 47
  const DOT_NAME: Name := [46]
  const DOT_DOT: Name := [46, 46]

  predicate PlainName(n: Name) {
    n != [] && n != DOT_NAME && n != DOT_DOT && SLASH !in n
  }

  ghost predicate AllPlain(p: Path) {
    forall i :: 0 <= i < |p| ==> PlainName(p[i])
  }

  // ---------------------------------------------------------------------------------------
  // Reading a path
  // ---------------------------------------------------------------------------------------

  /** The components of a path; `word` is the part of the current component already read. */
  function Components(raw: seq<byte>, word: Name): (p: Path)
    ensures forall i :: 0 <= i < |p| ==> p[i] != []
    decreases |raw|
  {
    if raw == [] then (if word == [] then [] else [word])
    else if raw[0] == SLASH then (if word == [] then [] else [word]) + Components(raw[1..], [])
    else Components(raw[1..], word + [raw[0]])
  }

  function Join(p: Path): seq<byte> {
    if p == [] then []
    else if |p| == 1 then p[0]
    else p[0] + [SLASH] + Join(p[1..])
  }

  lemma {:induction false} ReadName(n: Name, rest: seq<byte>, word: Name)
    requires SLASH !in n
    ensures Components(n + rest, word) == Components(rest, word + n)
    decreases |n|
  {
    if n == [] {
      assert n + rest == rest && word + n == word;
    } else {
      assert (n + rest)[1..] == n[1..] + rest;
      ReadName(n[1..], rest, word + [n[0]]);
      assert word + [n[0]] + n[1..] == word + n;
    }
  }

  /** Plain names joined by separators are read back as those names. */
  lemma {:induction false} ComponentsOfJoin(p: Path)
    requires AllPlain(p)
    ensures Components(Join(p), []) == p
  {
    if p != [] {
      var n := p[0];
      assert PlainName(n);
      if |p| == 1 {
        assert n + [] == n && [] + n == n;
        ReadName(n, [], []);
      } else {
        assert forall i :: 0 <= i < |p[1..]| ==> p[1..][i] == p[i + 1];
        ReadName(n, [SLASH] + Join(p[1..]), []);
        assert n + ([SLASH] + Join(p[1..])) == Join(p);
        assert ([SLASH] + Join(p[1..]))[1..] == Join(p[1..]) && [] + n == n;
        ComponentsOfJoin(p[1..]);
      }
    }
  }

  // ---------------------------------------------------------------------------------------
  // Lexical normalisation
  // ---------------------------------------------------------------------------------------

  function PushComponent(stack: Path, c: Name): Path {
    if c == DOT_NAME then stack
    else if c == DOT_DOT && stack != [] && stack[|stack| - 1] != DOT_DOT then stack[..|stack| - 1]
    else stack + [c]
  }

  function Normal(stack: Path, p: Path): Path
    decreases |p|
  {
    if p == [] then stack else Normal(PushComponent(stack, p[0]), p[1..])
  }

  /** lexically_normal: the components are taken one by one onto a stack. */
  method LexicallyNormal(p: Path) returns (normal: Path)
    ensures normal == if Normal([], p) == [] then [DOT_NAME] else Normal([], p)
  {
    var stack: Path := [];
    for i := 0 to |p|
      invariant Normal(stack, p[i..]) == Normal([], p)
    {
      assert p[i..][0] == p[i] && p[i..][1..] == p[i + 1..];
      stack := PushComponent(stack, p[i]);
    }
    return if stack == [] then [DOT_NAME] else stack;
  }

  /** Walking `p` from `depth` levels below the destination goes above it at some point. */
  predicate Climbs(p: Path, depth: nat)
    decreases |p|
  {
    p != [] &&
    if p[0] == DOT_NAME then Climbs(p[1..], depth)
    else if p[0] == DOT_DOT then depth == 0 || Climbs(p[1..], depth - 1)
    else Climbs(p[1..], depth + 1)
  }

  /** How many levels below the destination the walk ends that starts `depth` levels below it. */
  function EndDepth(p: Path, depth: nat): nat
    decreases |p|
  {
    if p == [] then depth
    else if p[0] == DOT_NAME then EndDepth(p[1..], depth)
    else if p[0] == DOT_DOT then EndDepth(p[1..], if depth == 0 then 0 else depth - 1)
    else EndDepth(p[1..], depth + 1)
  }

  ghost predicate NoDots(p: Path) {
    forall i :: 0 <= i < |p| ==> p[i] != DOT_DOT && p[i] != DOT_NAME
  }

  lemma {:induction false} DotDotStays(stack: Path, p: Path)
    requires stack != [] && stack[0] == DOT_DOT
    ensures Normal(stack, p) != [] && Normal(stack, p)[0] == DOT_DOT
    decreases |p|
  {
    if p != [] { DotDotStays(PushComponent(stack, p[0]), p[1..]); }
  }

  /** A normal form keeps a ".." exactly when the walk leaves the destination; otherwise it has
      no dots at all. */
  lemma {:induction false} NormalClimbs(stack: Path, p: Path)
    requires NoDots(stack)
    ensures DOT_DOT in Normal(stack, p) <==> Climbs(p, |stack|)
    ensures !Climbs(p, |stack|) ==> NoDots(Normal(stack, p))
    decreases |p|
  {
    if p == [] {
    } else if p[0] == DOT_DOT && stack == [] {
      DotDotStays([DOT_DOT], p[1..]);
      assert PushComponent(stack, p[0]) == [DOT_DOT];
    } else {
      NormalClimbs(PushComponent(stack, p[0]), p[1..]);
    }
  }

  /** The normal form of a walk that stays within the destination has one name for each level. */
  lemma {:induction false} NormalDepth(stack: Path, p: Path)
    requires NoDots(stack) && !Climbs(p, |stack|)
    ensures |Normal(stack, p)| == EndDepth(p, |stack|)
    decreases |p|
  {
    if p != [] {
      NormalDepth(PushComponent(stack, p[0]), p[1..]);
    }
  }

  lemma {:induction false} NormalOfPlain(stack: Path, p: Path)
    requires NoDots(p)
    ensures Normal(stack, p) == stack + p
    decreases |p|
  {
    if p != [] {
      assert forall i :: 0 <= i < |p[1..]| ==> p[1..][i] == p[i + 1];
      NormalOfPlain(stack + [p[0]], p[1..]);
      assert stack + [p[0]] + p[1..] == stack + p;
    } else {
      assert stack + p == stack;
    }
  }

  lemma {:induction false} NormalAppend(stack: Path, p: Path, q: Path)
    ensures Normal(stack, p + q) == Normal(Normal(stack, p), q)
    decreases |p|
  {
    if p == [] {
      assert p + q == q;
    } else {
      assert (p + q)[1..] == p[1..] + q;
      NormalAppend(PushComponent(stack, p[0]), p[1..], q);
    }
  }

  // ---------------------------------------------------------------------------------------
  // The accepted destination
  // ---------------------------------------------------------------------------------------

  /** IsSubpath: the first place where the two paths differ is the end of the base path. */
  method IsSubpath(base: Path, candidate: Path) returns (within: bool)
    ensures within <==> base <= candidate
  {
    var i := 0;
    while i < |base| && i < |candidate| && base[i] == candidate[i]
      invariant 0 <= i <= |base| && i <= |candidate| && base[..i] == candidate[..i]
    {
      i := i + 1;
    }
    return i == |base|;
  }

  function SafeReceivePath(base: Path, raw: seq<byte>, canonical: Path -> Option<Path>): Option<Path> {
    if raw == [] || raw[0] == SLASH then None
    else
      var relative := if Normal([], Components(raw, [])) == [] then [DOT_NAME] else Normal([], Components(raw, []));
      if DOT_DOT in relative then None
      else match canonical(base + relative)
           case None => None
           case Some(candidate) => if base <= candidate then Some(candidate) else None
  }

  method BuildSafeReceivePath(base: Path, raw: seq<byte>, canonical: Path -> Option<Path>) returns (r: Option<Path>)
    ensures r == SafeReceivePath(base, raw, canonical)
    ensures r.Some? ==> base <= r.value
  {
    if raw == [] || raw[0] == SLASH {
      return None;
    }
    var relative := LexicallyNormal(Components(raw, []));
    for i := 0 to |relative|
      invariant DOT_DOT !in relative[..i]
    {
      if relative[i] == DOT_DOT {
        return None;
      }
    }
    var candidate := canonical(base + relative);
    if candidate.None? {
      return None;
    }
    var within := IsSubpath(base, candidate.value);
    return if within then candidate else None;
  }

  /** Whatever the file system answers, an accepted path lies within the destination, and a path
      that would leave it on the way is never accepted. */
  lemma AcceptedIsWithin(base: Path, raw: seq<byte>, canonical: Path -> Option<Path>)
    ensures var r := SafeReceivePath(base, raw, canonical);
            r.Some? ==> base <= r.value && !Climbs(Components(raw, []), 0)
  {
    NormalClimbs([], Components(raw, []));
  }

  /** The canonicalisation of a tree without symbolic links. */
  function WithoutLinks(p: Path): Option<Path> {
    Some(Normal([], p))
  }

  /** Without symbolic links the accepted header paths are exactly the non-empty relative ones
      whose walk never leaves the destination, and they name what the walk reaches. */
  lemma AcceptedExactly(base: Path, raw: seq<byte>)
    requires NoDots(base)
    ensures var r := SafeReceivePath(base, raw, WithoutLinks);
            && (r.Some? <==> raw != [] && raw[0] != SLASH && !Climbs(Components(raw, []), 0))
            && (r.Some? ==> r.value == base + Normal([], Components(raw, [])))
  {
    var p := Components(raw, []);
    var n := Normal([], p);
    NormalClimbs([], p);
    if !Climbs(p, 0) {
      NormalAppend([], base, if n == [] then [DOT_NAME] else n);
      NormalOfPlain([], base);
      NormalOfPlain(base, n);
      assert [] + base == base && base + [] == base;
      assert Normal(base, [DOT_NAME]) == base by { assert [DOT_NAME][1..] == []; }
    }
  }

  lemma PlainPath(base: Path, p: Path)
    requires NoDots(base) && AllPlain(p) && p != []
    ensures SafeReceivePath(base, Join(p), WithoutLinks) == Some(base + p)
  {
    ComponentsOfJoin(p);
    assert PlainName(p[0]);
    assert Join(p)[0] == p[0][0];
    assert forall i :: 0 <= i < |p| ==> PlainName(p[i]);
    assert NoDots(p);
    NormalOfPlain([], p);
    assert [] + p == p;
    NormalClimbs([], p);
    AcceptedExactly(base, Join(p));
  }

  /** A header path can also be accepted as the destination directory itself: exactly when its
      walk never leaves the destination and ends where it started. */
  lemma AcceptedAsDestinationItself(base: Path, raw: seq<byte>)
    requires NoDots(base)
    ensures var p := Components(raw, []);
      SafeReceivePath(base, raw, WithoutLinks) == Some(base) <==>
        raw != [] && raw[0] != SLASH && !Climbs(p, 0) && EndDepth(p, 0) == 0
  {
    AcceptedExactly(base, raw);
    var p := Components(raw, []);
    if !Climbs(p, 0) {
      NormalDepth([], p);
      assert |base + Normal([], p)| == |base| + EndDepth(p, 0);
      assert base + [] == base;
    }
  }

  /** Whether the normal form of a header path is "." or ends with a separator: such a path names a
      directory, and no file can be opened under it. */
  predicate NamesDirectory(raw: seq<byte>) {
    var p := Components(raw, []);
    raw != [] && (raw[|raw| - 1] == SLASH || (p != [] && p[|p| - 1] in [DOT_NAME, DOT_DOT]))
  }

  lemma {:induction false} SomeComponent(raw: seq<byte>, word: Name)
    requires word != []
    ensures Components(raw, word) != []
    decreases |raw|
  {
    if raw != [] && raw[0] != SLASH { SomeComponent(raw[1..], word + [raw[0]]); }
  }

  lemma {:induction false} EndsBelow(p: Path, depth: nat)
    requires p != [] && p[|p| - 1] !in [DOT_NAME, DOT_DOT]
    ensures EndDepth(p, depth) > 0
    decreases |p|
  {
    if |p| > 1 {
      EndsBelow(p[1..], if p[0] == DOT_NAME then depth
                        else if p[0] != DOT_DOT then depth + 1
                        else if depth == 0 then 0 else depth - 1);
    } else {
      assert p[1..] == [];
    }
  }

  /** A header path that is accepted as the destination itself names a directory. */
  lemma DestinationItselfIsDirectory(base: Path, raw: seq<byte>)
    requires NoDots(base) && SafeReceivePath(base, raw, WithoutLinks) == Some(base)
    ensures NamesDirectory(raw)
  {
    AcceptedAsDestinationItself(base, raw);
    SomeComponent(raw[1..], [raw[0]]);
    var p := Components(raw, []);
    assert p == Components(raw[1..], [raw[0]]) by { assert [] + [raw[0]] == [raw[0]]; }
    if p[|p| - 1] !in [DOT_NAME, DOT_DOT] { EndsBelow(p, 0); }
  }

  lemma {:induction false} JoinEnds(p: Path)
    requires AllPlain(p) && p != []
    ensures Join(p) != [] && Join(p)[|Join(p)| - 1] != SLASH
    decreases |p|
  {
    assert PlainName(p[0]);
    if |p| > 1 {
      assert forall i :: 0 <= i < |p[1..]| ==> p[1..][i] == p[i + 1];
      JoinEnds(p[1..]);
    }
  }

  lemma PlainPathNamesFile(p: Path)
    requires AllPlain(p) && p != []
    ensures !NamesDirectory(Join(p))
  {
    JoinEnds(p);
    ComponentsOfJoin(p);
    assert PlainName(p[|p| - 1]);
  }

  lemma BackToStart()
    ensures !Climbs([[97], DOT_DOT], 0) && EndDepth([[97], DOT_DOT], 0) == 0
  {
    var p: Path := [[97], DOT_DOT];
    assert p[1..] == [DOT_DOT] && [DOT_DOT][1..] == [];
    assert Climbs(p, 0) == Climbs([DOT_DOT], 1) == Climbs([], 0);
    assert EndDepth(p, 0) == EndDepth([DOT_DOT], 1) == EndDepth([], 0);
  }

  /** One such path is "a/..". */
  lemma DestinationItselfExample(base: Path)
    requires NoDots(base)
    ensures SafeReceivePath(base, [97, SLASH, 46, 46], WithoutLinks) == Some(base)
  {
    AcceptedAsDestinationItself(base, [97, SLASH, 46, 46]);
    assert Components([97, SLASH, 46, 46], []) == [[97], DOT_DOT] by {
      ReadName([97], [SLASH, 46, 46], []);
      assert [97] + [SLASH, 46, 46] == [97, SLASH, 46, 46] && [] + [97] == [97];
      assert [SLASH, 46, 46][1..] == [46, 46];
      ReadName([46, 46], [], []);
      assert [46, 46] + [] == [46, 46] && [] + [46, 46] == DOT_DOT;
    }
    BackToStart();
  }
}
