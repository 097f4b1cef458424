/** normalizeRemotePath and parentRemotePath of apps/desktop/src/FileManagerController.cpp. */
module RemotePath {

  // ---------------------------------------------------------------------------------------
  // White space
  // ---------------------------------------------------------------------------------------

  /** The characters QString::trimmed removes. */
  predicate IsSpace(c: char) {
    var n := c as int;
    || 9 <= n <= 13 || n == 32 || n == 0x85 || n == 0xA0 || n == 0x1680
    || 0x2000 <= n <= 0x200A || n == 0x2028 || n == 0x2029 || n == 0x202F || n == 0x205F || n == 0x3000
  }

  function TrimStart(s: string): (r: string)
    ensures |r| <= |s| && (r != "" ==> !IsSpace(r[0]))
    ensures s != "" && !IsSpace(s[0]) ==> r == s
  {
    if s != "" && IsSpace(s[0]) then TrimStart(s[1..]) else s
  }

  function TrimEnd(s: string): (r: string)
    ensures r <= s && (r != "" ==> !IsSpace(r[|r| - 1]))
    ensures s != "" && !IsSpace(s[|s| - 1]) ==> r == s
    ensures s != "" && !IsSpace(s[0]) ==> r != ""
  {
    if s != "" && IsSpace(s[|s| - 1]) then TrimEnd(s[..|s| - 1]) else s
  }

  function Trimmed(s: string): (r: string)
    ensures |r| <= |s| && (r != "" ==> !IsSpace(r[0]) && !IsSpace(r[|r| - 1]))
    ensures s != "" && !IsSpace(s[0]) && !IsSpace(s[|s| - 1]) ==> r == s
    ensures s != "" && IsSpace(s[|s| - 1]) ==> |r| < |s|
  {
    TrimEnd(TrimStart(s))
  }

  // ---------------------------------------------------------------------------------------
  // Separators
  // ---------------------------------------------------------------------------------------

  function ToSlashes(s: string): (r: string)
    ensures |r| == |s|
    ensures forall i :: 0 <= i < |s| ==> r[i] == if s[i] == '\\' then '/' else s[i]
  {
    if s == "" then "" else [if s[0] == '\\' then '/' else s[0]] + ToSlashes(s[1..])
  }

  predicate HasPair(s: string) {
    exists i :: 0 < i < |s| && s[i - 1] == '/' && s[i] == '/'
  }

  /** One global replacement of "//" by "/": from left to right, without overlaps. */
  function ReplacePairs(s: string): string {
    if |s| < 2 then s
    else if s[0] == '/' && s[1] == '/' then "/" + ReplacePairs(s[2..])
    else [s[0]] + ReplacePairs(s[1..])
  }

  /** Every run of slashes reduced to one. */
  function Collapse(s: string): string {
    if |s| < 2 then s
    else if s[0] == '/' && s[1] == '/' then Collapse(s[1..])
    else [s[0]] + Collapse(s[1..])
  }

  lemma {:induction false} ReplaceShortens(s: string)
    ensures |ReplacePairs(s)| <= |s|
    ensures HasPair(s) ==> |ReplacePairs(s)| < |s|
  {
    if |s| >= 2 {
      if s[0] == '/' && s[1] == '/' {
        ReplaceShortens(s[2..]);
      } else {
        ReplaceShortens(s[1..]);
        if HasPair(s) {
          var i :| 0 < i < |s| && s[i - 1] == '/' && s[i] == '/';
          assert s[1..][i - 2] == '/' && s[1..][i - 1] == '/';
        }
      }
    }
  }

  lemma {:induction false} ReplaceKeepsFirst(s: string)
    requires s != ""
    ensures ReplacePairs(s) != "" && ReplacePairs(s)[0] == s[0]
  {
  }

  /** A replacement changes the lengths of the runs only. */
  lemma {:induction false} ReplaceKeepsCollapse(s: string)
    ensures Collapse(ReplacePairs(s)) == Collapse(s)
  {
    if |s| >= 2 {
      if s[0] == '/' && s[1] == '/' {
        var r := s[2..];
        ReplaceKeepsCollapse(r);
        assert ("/" + ReplacePairs(r))[1..] == ReplacePairs(r) && s[1..][1..] == r;
        if r != "" {
          ReplaceKeepsFirst(r);
          assert s[1..][1] == r[0];
        }
      } else {
        var r := s[1..];
        ReplaceKeepsCollapse(r);
        ReplaceKeepsFirst(r);
        assert ([s[0]] + ReplacePairs(r))[1..] == ReplacePairs(r);
      }
    }
  }

  lemma {:induction false} CollapseOfNoPair(s: string)
    requires !HasPair(s)
    ensures Collapse(s) == s
  {
    if |s| >= 2 {
      assert !(s[1 - 1] == '/' && s[1] == '/');
      assert forall i :: 0 <= i < |s[1..]| ==> s[1..][i] == s[i + 1];
      CollapseOfNoPair(s[1..]);
    }
  }

  lemma {:induction false} CollapseHasNoPair(s: string)
    ensures !HasPair(Collapse(s)) && |Collapse(s)| <= |s|
    ensures s != "" ==> Collapse(s) != "" && Collapse(s)[0] == s[0] && Collapse(s)[|Collapse(s)| - 1] == s[|s| - 1]
    ensures forall i :: 0 <= i < |Collapse(s)| ==> Collapse(s)[i] in s
  {
    if |s| >= 2 {
      var c := Collapse(s[1..]);
      CollapseHasNoPair(s[1..]);
      if !(s[0] == '/' && s[1] == '/') {
        assert ([s[0]] + c)[1..] == c;
      }
      assert forall x :: x in s[1..] ==> x in s;
    }
  }

  function Chop(s: string): string {
    if |s| > 1 && s[|s| - 1] == '/' then s[..|s| - 1] else s
  }

  /** What normalizeRemotePath computes, without its loop. */
  function Normalize(path: string): string {
    Chop(Collapse(ToSlashes(Trimmed(path))))
  }

  /** normalizeRemotePath: the replacement is repeated until no double slash is left. */
  method NormalizeRemotePath(path: string) returns (normalized: string)
    ensures normalized == Normalize(path)
  {
    normalized := Trimmed(path);
    if normalized == "" {
      return "";
    }
    normalized := ToSlashes(normalized);
    while HasPair(normalized)
      invariant Collapse(normalized) == Collapse(ToSlashes(Trimmed(path)))
      decreases |normalized|
    {
      ReplaceShortens(normalized);
      ReplaceKeepsCollapse(normalized);
      normalized := ReplacePairs(normalized);
    }
    CollapseOfNoPair(normalized);
    if |normalized| > 1 && normalized[|normalized| - 1] == '/' {
      normalized := normalized[..|normalized| - 1];
    }
  }

  // ---------------------------------------------------------------------------------------
  // The shape of the result
  // ---------------------------------------------------------------------------------------

  predicate InNormalForm(s: string) {
    && '\\' !in s && !HasPair(s)
    && (s != "" ==> !IsSpace(s[0]))
    && (|s| > 1 ==> s[|s| - 1] != '/')
  }

  /** The result has only forward slashes, never two together, does not start with white space
      and does not end with a slash unless it is "/". */
  lemma NormalizeIsNormal(path: string)
    ensures InNormalForm(Normalize(path)) && |Normalize(path)| <= |Trimmed(path)|
  {
    hide IsSpace, HasPair, Collapse;
    var s := Trimmed(path);
    var t := ToSlashes(s);
    CollapseHasNoPair(t);
    SlashIsNoSpace();
    assert '\\' !in Collapse(t) by {
      assert forall i :: 0 <= i < |t| ==> t[i] == if s[i] == '\\' then '/' else s[i];
    }
    ChopIsNormal(Collapse(t));
  }

  lemma ChopIsNormal(c: string)
    requires '\\' !in c && !HasPair(c) && (c != "" ==> !IsSpace(c[0]))
    ensures InNormalForm(Chop(c))
  {
    hide IsSpace;
    var r := Chop(c);
    assert forall i :: 0 <= i < |r| ==> r[i] == c[i];
    if |c| > 1 && c[|c| - 1] == '/' {
      assert c[|c| - 2] != '/';
    }
  }

  lemma SlashIsNoSpace()
    ensures !IsSpace('/')
  {
  }

  lemma NormalFormIsFixed(s: string)
    requires InNormalForm(s) && (s != "" ==> !IsSpace(s[|s| - 1]))
    ensures Normalize(s) == s
  {
    hide IsSpace;
    if s != "" {
      assert Trimmed(s) == s;
      assert forall i :: 0 <= i < |s| ==> s[i] != '\\';
      assert ToSlashes(s) == s;
      CollapseOfNoPair(s);
    }
  }

  predicate IsSeparator(c: char) {
    c == '/' || c == '\\'
  }

  /** The text without the separators at its end. */
  function WithoutSeparators(s: string): (r: string)
    ensures r <= s
  {
    if s != "" && IsSeparator(s[|s| - 1]) then WithoutSeparators(s[..|s| - 1]) else s
  }

  lemma {:induction false} CollapseSnoc(s: string, c: char)
    ensures Collapse(s + [c]) == if s != "" && s[|s| - 1] == '/' && c == '/' then Collapse(s) else Collapse(s) + [c]
    decreases |s|
  {
    if |s| == 1 {
      assert (s + [c])[1..] == [c];
    } else if |s| > 1 {
      CollapseSnoc(s[1..], c);
      assert (s + [c])[1..] == s[1..] + [c];
    }
  }

  lemma {:induction false} ToSlashesSnoc(s: string, c: char)
    ensures ToSlashes(s + [c]) == ToSlashes(s) + [if c == '\\' then '/' else c]
  {
    if s == "" {
      assert s + [c] == [c] && [c][1..] == "";
    } else {
      ToSlashesSnoc(s[1..], c);
      assert (s + [c])[1..] == s[1..] + [c] && (s + [c])[0] == s[0];
    }
  }

  /** Collapsing puts one slash for all the separators at the end. */
  lemma {:induction false} CollapseEnd(s: string)
    ensures var front, c := WithoutSeparators(s), Collapse(ToSlashes(s));
      if front == s then c == Collapse(ToSlashes(front))
      else if front == "" then c == "/"
      else c == Collapse(ToSlashes(front)) + "/"
    decreases |s|
  {
    hide ToSlashes, Collapse;
    if s != "" && IsSeparator(s[|s| - 1]) {
      var n := |s| - 1;
      var rest := s[..n];
      CollapseEnd(rest);
      ToSlashesSnoc(rest, s[n]);
      assert rest + [s[n]] == s;
      CollapseSnoc(ToSlashes(rest), '/');
      if n == 0 {
        assert Collapse(ToSlashes(rest) + ['/']) == "/" by { CollapseOfOne(); }
      } else {
        assert ToSlashes(rest)[n - 1] == '/' <==> IsSeparator(rest[n - 1]);
      }
    }
  }

  lemma CollapseOfOne()
    ensures ToSlashes("") == "" && Collapse("") == ""
  {
  }

  /** Without its separators at the end, the trimmed path is what decides the end of the result. */
  lemma NormalizeEnd(path: string)
    ensures var front, n := WithoutSeparators(Trimmed(path)), Normalize(path);
      (n != "" && IsSpace(n[|n| - 1])) <==> (front != "" && IsSpace(front[|front| - 1]))
  {
    hide IsSpace, Collapse, HasPair, Trimmed, WithoutSeparators;
    var s := Trimmed(path);
    var front := WithoutSeparators(s);
    CollapseEnd(s);
    CollapseHasNoPair(ToSlashes(front));
    SlashIsNoSpace();
    WithoutSeparatorsStops(s);
    if front != "" {
      var c := Collapse(ToSlashes(front));
      assert c[|c| - 1] == ToSlashes(front)[|front| - 1] == front[|front| - 1];
    }
  }

  lemma WithoutSeparatorsStops(s: string)
    ensures var front := WithoutSeparators(s); front != "" ==> !IsSeparator(front[|front| - 1])
  {
  }

  /** Normalising twice changes the result exactly when white space stands before the separators at
      the end of the path. */
  lemma IdempotentExactly(path: string)
    ensures var front := WithoutSeparators(Trimmed(path));
      Normalize(Normalize(path)) == Normalize(path) <==> (front == "" || !IsSpace(front[|front| - 1]))
  {
    hide IsSpace, InNormalForm;
    var n := Normalize(path);
    NormalizeIsNormal(path);
    NormalizeEnd(path);
    if n == "" || !IsSpace(n[|n| - 1]) {
      NormalFormIsFixed(n);
    } else {
      NormalizeIsNormal(n);
      assert |Trimmed(n)| < |n|;
    }
  }

  lemma NotIdempotentExample()
    ensures Normalize("a /") == "a " && Normalize("a ") == "a"
  {
    assert Trimmed("a /") == "a /" && ToSlashes("a /") == "a /";
    assert !HasPair("a /");
    CollapseOfNoPair("a /");
    assert Trimmed("a ") == "a" by {
      assert TrimStart("a ") == "a " && "a "[..1] == "a";
      assert TrimEnd("a ") == TrimEnd("a");
    }
    assert ToSlashes("a") == "a";
  }

  // ---------------------------------------------------------------------------------------
  // Going up
  // ---------------------------------------------------------------------------------------

  /** lastIndexOf('/'), or -1. */
  function LastSlash(s: string): (i: int)
    ensures -1 <= i < |s|
    ensures i >= 0 ==> s[i] == '/'
    ensures forall j :: i < j < |s| ==> s[j] != '/'
  {
    if s == "" then -1 else if s[|s| - 1] == '/' then |s| - 1 else LastSlash(s[..|s| - 1])
  }

  function Parent(path: string): string {
    var n := Normalize(path);
    if n == "" || n == "/" then n
    else if LastSlash(n) <= 0 then "/"
    else n[..LastSlash(n)]
  }

  function IterateParent(path: string, steps: nat): string
    decreases steps
  {
    if steps == 0 then path else IterateParent(Parent(path), steps - 1)
  }

  /** The names a path consists of; `word` is the part of the current name already read. */
  function NamesOf(s: string, word: string): (names: seq<string>)
    ensures forall i :: 0 <= i < |names| ==> names[i] != ""
    decreases |s|
  {
    if s == "" then (if word == "" then [] else [word])
    else if IsSeparator(s[0]) then (if word == "" then [] else [word]) + NamesOf(s[1..], "")
    else NamesOf(s[1..], word + [s[0]])
  }

  lemma {:induction false} NamesToSlashes(s: string, word: string)
    ensures NamesOf(ToSlashes(s), word) == NamesOf(s, word)
    decreases |s|
  {
    if s != "" {
      assert ToSlashes(s)[1..] == ToSlashes(s[1..]);
      NamesToSlashes(s[1..], if IsSeparator(s[0]) then "" else word + [s[0]]);
    }
  }

  lemma {:induction false} NamesCollapse(s: string, word: string)
    ensures NamesOf(Collapse(s), word) == NamesOf(s, word)
    decreases |s|
  {
    if |s| >= 2 {
      if s[0] == '/' && s[1] == '/' {
        NamesCollapse(s[1..], word);
        assert NamesOf(s[1..], "") == NamesOf(s[1..][1..], "");
      } else {
        NamesCollapse(s[1..], if IsSeparator(s[0]) then "" else word + [s[0]]);
        assert ([s[0]] + Collapse(s[1..]))[1..] == Collapse(s[1..]);
      }
    }
  }

  /** A separator between two paths ends a name. */
  lemma {:induction false} NamesJoin(a: string, b: string, word: string)
    ensures NamesOf(a + "/" + b, word) == NamesOf(a, word) + NamesOf(b, "")
    decreases |a|
  {
    var joined := a + "/" + b;
    if a == "" {
      assert joined[0] == '/' && joined[1..] == b;
    } else {
      assert joined[0] == a[0] && joined[1..] == a[1..] + "/" + b;
      NamesJoin(a[1..], b, if IsSeparator(a[0]) then "" else word + [a[0]]);
    }
  }

  predicate IsName(name: string) {
    name != "" && forall i :: 0 <= i < |name| ==> !IsSeparator(name[i])
  }

  lemma {:induction false} NamesOfName(name: string, word: string)
    requires forall i :: 0 <= i < |name| ==> !IsSeparator(name[i])
    ensures NamesOf(name, word) == if word + name == "" then [] else [word + name]
    decreases |name|
  {
    if name == "" {
      assert word + name == word;
    } else {
      NamesOfName(name[1..], word + [name[0]]);
      assert word + [name[0]] + name[1..] == word + name;
    }
  }

  /** Normalising a path keeps its names and their order. */
  lemma NormalizeKeepsNames(path: string)
    ensures NamesOf(Normalize(path), "") == NamesOf(Trimmed(path), "")
  {
    hide IsSpace, IsSeparator, HasPair, NamesOf, Collapse;
    var s := Trimmed(path);
    var c := Collapse(ToSlashes(s));
    NamesToSlashes(s, "");
    NamesCollapse(ToSlashes(s), "");
    if |c| > 1 && c[|c| - 1] == '/' {
      var front := c[..|c| - 1];
      assert c == front + "/" + "";
      NamesJoin(front, "", "");
      NamesOfName("", "");
      assert NamesOf(front, "") + [] == NamesOf(front, "");
    }
  }

  lemma NormalizeKeepsFirst(path: string)
    requires Trimmed(path) != ""
    ensures var first := Trimmed(path)[0];
      Normalize(path) != "" && Normalize(path)[0] == if first == '\\' then '/' else first
  {
    hide IsSpace, HasPair, Collapse;
    CollapseHasNoPair(ToSlashes(Trimmed(path)));
  }

  /** No name ends with white space. */
  predicate EndWell(names: seq<string>) {
    forall i :: 0 <= i < |names| && names[i] != "" ==> !IsSpace(names[i][|names[i]| - 1])
  }

  ghost predicate AbsoluteNormal(s: string) {
    s != "" && s[0] == '/' && InNormalForm(s) && EndWell(NamesOf(s, ""))
  }

  lemma PrefixNormal(s: string, k: nat)
    requires InNormalForm(s) && 0 < k <= |s| && s[k - 1] != '/'
    ensures InNormalForm(s[..k]) && s[..k] != ""
  {
    hide IsSpace;
    assert forall i :: 0 <= i < k ==> s[..k][i] == s[i];
  }

  lemma AfterLastSlash(s: string)
    requires '\\' !in s && LastSlash(s) < |s| - 1
    ensures IsName(s[LastSlash(s) + 1..])
  {
    var i := LastSlash(s);
    var name := s[i + 1..];
    forall j | 0 <= j < |name| ensures !IsSeparator(name[j]) {
      assert name[j] == s[i + 1 + j] && s[i + 1 + j] in s;
    }
  }

  /** A normal form but the root is cut by its last slash into what stands before and one name. */
  lemma LastName(s: string)
    requires |s| > 1 && s[0] == '/' && InNormalForm(s)
    ensures var i := LastSlash(s);
      && 0 <= i < |s| - 1 && IsName(s[i + 1..]) && s == s[..i] + "/" + s[i + 1..]
      && NamesOf(s, "") == NamesOf(s[..i], "") + [s[i + 1..]]
  {
    hide IsSpace, NamesOf, HasPair, IsName, IsSeparator, LastSlash;
    var i := LastSlash(s);
    CutAtLastSlash(s);
    AfterLastSlash(s);
    var front, name := s[..i], s[i + 1..];
    NamesJoin(front, name, "");
    OneName(name);
  }

  lemma CutAtLastSlash(s: string)
    requires |s| > 1 && s[0] == '/' && s[|s| - 1] != '/'
    ensures var i := LastSlash(s); 0 <= i < |s| - 1 && s == s[..i] + "/" + s[i + 1..]
  {
    hide LastSlash;
    SlashFound(s, 0);
    Cut(s, LastSlash(s));
  }

  lemma SlashFound(s: string, j: nat)
    requires j < |s| && s[j] == '/'
    ensures LastSlash(s) >= j
  {
    hide LastSlash;
  }

  lemma Cut(s: string, i: nat)
    requires i < |s| && s[i] == '/'
    ensures s == s[..i] + "/" + s[i + 1..]
  {
  }

  lemma OneName(name: string)
    requires IsName(name)
    ensures NamesOf(name, "") == [name]
  {
    hide NamesOf;
    NamesOfName(name, "");
    assert "" + name == name;
  }

  /** Going up one step drops exactly the last name. */
  lemma ParentDropsLastName(s: string)
    requires AbsoluteNormal(s)
    ensures AbsoluteNormal(Parent(s))
    ensures var names := NamesOf(s, "");
      NamesOf(Parent(s), "") == if names == [] then [] else names[..|names| - 1]
    ensures NamesOf(s, "") == [] <==> s == "/"
  {
    hide IsSpace, NamesOf;
    RootHasNoName();
    if s == "/" {
      NormalFormIsFixed(s);
    } else {
      assert |s| > 1;
      LastName(s);
      var i := LastSlash(s);
      var names := NamesOf(s, "");
      assert names[|names| - 1] == s[i + 1..];
      NormalFormIsFixed(s);
      if i > 0 {
        assert s[i - 1] != '/';
        PrefixNormal(s, i);
        assert NamesOf(s[..i], "") == names[..|names| - 1];
      } else {
        NamesOfName("", "");
        assert s[..0] == "" && [] + [s[1..]] == [s[1..]];
      }
    }
  }

  lemma RootHasNoName()
    ensures InNormalForm("/") && NamesOf("/", "") == [] && !IsSpace('/')
  {
    assert "/"[1..] == "";
  }

  function Child(folder: string, name: string): string {
    if folder == "/" then "/" + name else folder + "/" + name
  }

  /** The parent of a folder's child is the folder. */
  lemma ParentOfChild(folder: string, name: string)
    requires folder != "" && folder[0] == '/' && InNormalForm(folder)
    requires IsName(name) && !IsSpace(name[|name| - 1])
    ensures Parent(Child(folder, name)) == folder
  {
    hide IsSpace, InNormalForm, Normalize;
    var child := Child(folder, name);
    var k := if folder == "/" then 0 else |folder|;
    ChildIsNormal(folder, name);
    NormalFormIsFixed(child);
    assert forall j :: k < j < |child| ==> child[j] == name[j - k - 1];
    SlashIsLast(child, k);
  }

  lemma ChildIsNormal(folder: string, name: string)
    requires folder != "" && folder[0] == '/' && InNormalForm(folder) && IsName(name)
    ensures InNormalForm(Child(folder, name))
  {
    hide IsSpace;
    var k := if folder == "/" then 0 else |folder|;
    var child := Child(folder, name);
    forall j | 0 <= j < |child|
      ensures child[j] == if j < k then folder[j] else if j == k then '/' else name[j - k - 1]
    {
    }
    assert !IsSpace('/') by { SlashIsNoSpace(); }
  }

  lemma {:induction false} SlashIsLast(s: string, k: nat)
    requires k < |s| && s[k] == '/' && forall j :: k < j < |s| ==> s[j] != '/'
    ensures LastSlash(s) == k
  {
  }

  /** Going up from an absolute path none of whose names ends with white space: each step takes off
      the last name that is left. */
  lemma {:induction false} GoingUp(s: string, steps: nat)
    requires AbsoluteNormal(s)
    ensures var names := NamesOf(s, "");
      NamesOf(IterateParent(s, steps), "") == names[..if steps < |names| then |names| - steps else 0]
    ensures IterateParent(s, steps) == "/" <==> steps >= |NamesOf(s, "")|
    decreases steps
  {
    hide AbsoluteNormal, NamesOf, Parent;
    ParentDropsLastName(s);
    if steps > 0 {
      GoingUp(Parent(s), steps - 1);
    }
  }

  /** From an absolute path none of whose names ends with white space, going up reaches "/" after
      exactly as many steps as the path has names, through the folders on the way. */
  lemma RootReachedExactly(path: string, steps: nat)
    requires Trimmed(path) != "" && IsSeparator(Trimmed(path)[0]) && EndWell(NamesOf(Trimmed(path), ""))
    ensures var names, up := NamesOf(Trimmed(path), ""), IterateParent(Normalize(path), steps);
      && (up == "/" <==> steps >= |names|)
      && NamesOf(up, "") == names[..if steps < |names| then |names| - steps else 0]
  {
    hide IsSpace, InNormalForm, NamesOf, EndWell;
    NormalizeKeepsNames(path);
    NormalizeKeepsFirst(path);
    NormalizeIsNormal(path);
    GoingUp(Normalize(path), steps);
  }
}
