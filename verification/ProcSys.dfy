/** From a dotted sysctl key to its file under /proc/sys. */
module ProcSys {
  import opened Text
  import Sequences

  /** `strings.ReplaceAll(s, "..", "")`: pairs of dots go, left to right. */
  function DropDotDot(s: string): string {
    if |s| < 2 then s
    else if s[0] == '.' && s[1] == '.' then DropDotDot(s[2..])
    else [s[0]] + DropDotDot(s[1..])
  }

  /** `strings.ReplaceAll(s, "/", "")`. */
  function DropSlash(s: string): string {
    if s == "" then ""
    else (if s[0] == '/' then "" else [s[0]]) + DropSlash(s[1..])
  }

  /** The path elements a key stands for, some of them possibly empty. */
  function KeyElements(key: string): seq<string> { Split(DropSlash(DropDotDot(key)), '.') }

  // ---- filepath.Join and filepath.Clean

  /** Resolve "." and ".." and drop empty elements; `kept` is what is resolved so far. */
  function CleanFrom(kept: seq<string>, elems: seq<string>, rooted: bool): seq<string>
    decreases |elems|
  {
    if elems == [] then kept
    else
      var e, rest := elems[0], elems[1..];
      if e == "" || e == "." then CleanFrom(kept, rest, rooted)
      else if e != ".." then CleanFrom(kept + [e], rest, rooted)
      else if kept != [] && kept[|kept| - 1] != ".." then CleanFrom(kept[..|kept| - 1], rest, rooted)
      else if rooted then CleanFrom(kept, rest, rooted)
      else CleanFrom(kept + [".."], rest, rooted)
  }

  function Clean(path: string): string {
    var rooted := HasPrefix(path, "/");
    var elems := CleanFrom([], Split(path, '/'), rooted);
    if rooted then "/" + Join(elems, "/")
    else if elems == [] then "."
    else Join(elems, "/")
  }

  /** `Env.Path`: the elements joined onto the root, empty elements ignored. */
  function EnvPath(root: string, elems: seq<string>): string {
    Clean(Join(NonEmpty([if root == "" then "/" else root] + elems), "/"))
  }

  /** `Env.SysctlPath`. */
  function SysctlPath(root: string, key: string): string { EnvPath(root, ["proc", "sys"] + KeyElements(key)) }

  // ---- every key stays below /proc/sys

  /** The root as `Clean` leaves it. */
  function RootElements(root: string): seq<string> {
    var r := if root == "" then "/" else root;
    CleanFrom([], Split(r, '/'), HasPrefix(r, "/"))
  }

  function Render(root: string, elems: seq<string>): string {
    (if root == "" || HasPrefix(root, "/") then "/" else "") + Join(elems, "/")
  }

  /** A path element that names something inside the directory before it. */
  predicate Plain(e: string) { e != "" && Free(e, Only('.')) && Free(e, Only('/')) }

  lemma {:induction false} DropSlashFree(s: string)
    ensures Free(DropSlash(s), Only('/'))
    ensures Free(s, Only('/')) ==> DropSlash(s) == s
  {
    if s != "" { DropSlashFree(s[1..]); }
  }

  lemma KeyElementsPlain(key: string)
    ensures forall e :: e in NonEmpty(KeyElements(key)) ==> Plain(e)
  {
    var s := DropSlash(DropDotDot(key));
    DropSlashFree(DropDotDot(key));
    PieceChars(s, Only('.'), Only('/'));
    PiecesFree(s, Only('.'));
    NonEmptyMembers(KeyElements(key));
  }

  lemma {:induction false} CleanConcat(kept: seq<string>, a: seq<string>, b: seq<string>, rooted: bool)
    ensures CleanFrom(kept, a + b, rooted) == CleanFrom(CleanFrom(kept, a, rooted), b, rooted)
    decreases |a|
  {
    if a == [] {
      assert a + b == b;
    } else {
      assert (a + b)[1..] == a[1..] + b;
      var e := a[0];
      if e == "" || e == "." {
        CleanConcat(kept, a[1..], b, rooted);
      } else if e != ".." {
        CleanConcat(kept + [e], a[1..], b, rooted);
      } else if kept != [] && kept[|kept| - 1] != ".." {
        CleanConcat(kept[..|kept| - 1], a[1..], b, rooted);
      } else if rooted {
        CleanConcat(kept, a[1..], b, rooted);
      } else {
        CleanConcat(kept + [".."], a[1..], b, rooted);
      }
    }
  }

  lemma {:induction false} CleanPlain(kept: seq<string>, elems: seq<string>, rooted: bool)
    requires forall e :: e in elems ==> Plain(e)
    ensures CleanFrom(kept, elems, rooted) == kept + elems
    decreases |elems|
  {
    if elems != [] {
      assert elems[0] in elems;
      assert elems[0] != "." && elems[0] != ".." by {
        if elems[0] == "." || elems[0] == ".." { assert Only('.').Matches(elems[0][0]); }
      }
      CleanPlain(kept + [elems[0]], elems[1..], rooted);
      assert kept + [elems[0]] + elems[1..] == kept + elems;
    }
  }

  lemma {:induction false} JoinSplits(first: string, elems: seq<string>)
    requires forall e :: e in elems ==> Plain(e)
    ensures Split(Join([first] + elems, "/"), '/') == Split(first, '/') + elems
    ensures HasPrefix(first, "/") ==> HasPrefix(Join([first] + elems, "/"), "/")
    ensures first != "" && !HasPrefix(first, "/") ==> !HasPrefix(Join([first] + elems, "/"), "/")
    decreases |elems|
  {
    if elems == [] {
      assert [first] + elems == [first];
    } else {
      assert ([first] + elems)[1..] == elems == [elems[0]] + elems[1..];
      assert elems[0] in elems;
      JoinSplits(elems[0], elems[1..]);
      SplitOnFree(elems[0], Only('/'));
      SplitOnConcat(first, '/', Join(elems, "/"), Only('/'));
      assert Join([first] + elems, "/") == first + "/" + Join(elems, "/");
    }
  }

  /** Every key, however malformed, names /proc/sys below the root followed only by plain elements. */
  lemma PathNormalForm(root: string, key: string)
    ensures var elems := NonEmpty(KeyElements(key));
      && SysctlPath(root, key) == Render(root, RootElements(root) + ["proc", "sys"] + elems)
      && forall e :: e in elems ==> Plain(e)
  {
    var elems := NonEmpty(KeyElements(key));
    KeyElementsPlain(key);
    ProcSysPlain(elems);
    EnvPathPlain(root, KeyElements(key));
  }

  lemma EnvPathPlain(root: string, elems: seq<string>)
    requires forall e :: e in ["proc", "sys"] + NonEmpty(elems) ==> Plain(e)
    ensures EnvPath(root, ["proc", "sys"] + elems) == Render(root, RootElements(root) + ["proc", "sys"] + NonEmpty(elems))
  {
    EnvPathBelow(root, ["proc", "sys"], elems);
  }

  lemma EnvPathBelow(root: string, base: seq<string>, elems: seq<string>)
    requires base != [] && (forall i :: 0 <= i < |base| ==> base[i] != "") && forall e :: e in base + NonEmpty(elems) ==> Plain(e)
    ensures EnvPath(root, base + elems) == Render(root, RootElements(root) + base + NonEmpty(elems))
  {
    var r := if root == "" then "/" else root;
    var kept := NonEmpty(elems);
    DropEmpties(r, base, elems);
    assert EnvPath(root, base + elems) == Clean(Join([r] + (base + kept), "/"));
    CleanJoined(r, base + kept);
    Sequences.Associate(RootElements(root), base, kept);
  }

  lemma ProcSysPlain(elems: seq<string>)
    requires forall e :: e in elems ==> Plain(e)
    ensures forall e :: e in ["proc", "sys"] + elems ==> Plain(e)
  {
    assert Plain("proc") && Plain("sys");
  }

  lemma CleanJoined(r: string, elems: seq<string>)
    requires r != "" && elems != [] && forall e :: e in elems ==> Plain(e)
    ensures var cleaned := CleanFrom([], Split(r, '/'), HasPrefix(r, "/"));
      Clean(Join([r] + elems, "/")) == (if HasPrefix(r, "/") then "/" else "") + Join(cleaned + elems, "/")
  {
    JoinSplits(r, elems);
    CleanConcat([], Split(r, '/'), elems, HasPrefix(r, "/"));
    CleanPlain(CleanFrom([], Split(r, '/'), HasPrefix(r, "/")), elems, HasPrefix(r, "/"));
  }

  lemma DropEmpties(r: string, base: seq<string>, elems: seq<string>)
    requires r != "" && forall i :: 0 <= i < |base| ==> base[i] != ""
    ensures NonEmpty([r] + (base + elems)) == [r] + (base + NonEmpty(elems))
  {
    NonEmptyConcat([r], base + elems);
    NonEmptyConcat(base, elems);
    NonEmptyAll([r]);
    NonEmptyAll(base);
  }

  // ---- distinct keys, distinct paths

  /** Dot-separated, non-empty, slash-free components. */
  predicate ProperKey(key: string) {
    && Free(key, Only('/'))
    && forall i :: 0 <= i < |Split(key, '.')| ==> Split(key, '.')[i] != ""
  }

  lemma {:induction false} NoEmptyPieceNoDotDot(key: string)
    requires forall i :: 1 <= i < |Split(key, '.')| ==> Split(key, '.')[i] != ""
    ensures DropDotDot(key) == key
  {
    if |key| >= 2 {
      var rest := Split(key[1..], '.');
      if key[0] == '.' {
        assert Split(key, '.')[1] == rest[0];
        forall i | 1 <= i < |rest| ensures rest[i] != "" { assert Split(key, '.')[i + 1] == rest[i]; }
      } else {
        forall i | 1 <= i < |rest| ensures rest[i] != "" { assert Split(key, '.')[i] == rest[i]; }
      }
      NoEmptyPieceNoDotDot(key[1..]);
      assert [key[0]] + key[1..] == key;
    }
  }

  lemma ProperKeyElements(key: string)
    requires ProperKey(key)
    ensures NonEmpty(KeyElements(key)) == Split(key, '.')
  {
    NoEmptyPieceNoDotDot(key);
    DropSlashFree(key);
    NonEmptyAll(Split(key, '.'));
  }

  /** Two keys name one file exactly when the same elements are left of them, empty ones dropped. */
  lemma SamePathIff(root: string, key1: string, key2: string)
    ensures SysctlPath(root, key1) == SysctlPath(root, key2) <==> NonEmpty(KeyElements(key1)) == NonEmpty(KeyElements(key2))
  {
    PathNormalForm(root, key1);
    PathNormalForm(root, key2);
    RootSlashFree(root);
    var base := RootElements(root) + ["proc", "sys"];
    if SysctlPath(root, key1) == SysctlPath(root, key2) {
      RenderedApart(root, base, NonEmpty(KeyElements(key1)), NonEmpty(KeyElements(key2)));
    }
  }

  lemma RenderedApart(root: string, base: seq<string>, e1: seq<string>, e2: seq<string>)
    requires base != [] && forall e :: e in base + e1 + e2 ==> Free(e, Only('/'))
    requires Render(root, base + e1) == Render(root, base + e2)
    ensures e1 == e2
  {
    assert Join(base + e1, "/") == Join(base + e2, "/") by {
      var slash := if root == "" || HasPrefix(root, "/") then "/" else "";
      assert (slash + Join(base + e1, "/"))[|slash|..] == Join(base + e1, "/");
      assert (slash + Join(base + e2, "/"))[|slash|..] == Join(base + e2, "/");
    }
    forall i | 0 <= i < |base + e1| ensures Free((base + e1)[i], Only('/')) { assert (base + e1)[i] in base + e1 + e2; }
    forall i | 0 <= i < |base + e2| ensures Free((base + e2)[i], Only('/')) { assert (base + e2)[i] in base + e1 + e2; }
    SplitJoin(base + e1, '/');
    SplitJoin(base + e2, '/');
    assert e1 == (base + e1)[|base|..] && e2 == (base + e2)[|base|..];
  }

  /** The file of a proper key: its components, below proc/sys. */
  lemma ProperKeyPath(root: string, key: string)
    requires ProperKey(key)
    ensures SysctlPath(root, key) == Render(root, RootElements(root) + ["proc", "sys"] + Split(key, '.'))
    ensures root == "/" ==> SysctlPath(root, key) == "/" + Join(["proc", "sys"] + Split(key, '.'), "/")
  {
    PathNormalForm(root, key);
    ProperKeyElements(key);
    if root == "/" {
      assert Split("/", '/') == [""] + Split("", '/') && RootElements("/") == [];
      assert [] + ["proc", "sys"] == ["proc", "sys"];
    }
  }

  predicate Resolved(e: string, rooted: bool) { e != "" && e != "." && (rooted ==> e != "..") }

  /** Cleaning a path: what is left has no empty, "." element, nor ".." below a root, and an element followed by ".."
      cancels. */
  lemma {:induction false} CleanLeaves(kept: seq<string>, elems: seq<string>, rooted: bool)
    requires forall e :: e in kept ==> Resolved(e, rooted)
    ensures forall e :: e in CleanFrom(kept, elems, rooted) ==> Resolved(e, rooted)
    decreases |elems|
  {
    if elems != [] {
      var e, rest := elems[0], elems[1..];
      if e == "" || e == "." {
        CleanLeaves(kept, rest, rooted);
      } else if e != ".." {
        CleanLeaves(kept + [e], rest, rooted);
      } else if kept != [] && kept[|kept| - 1] != ".." {
        forall x | x in kept[..|kept| - 1] ensures Resolved(x, rooted) { assert x in kept; }
        CleanLeaves(kept[..|kept| - 1], rest, rooted);
      } else if rooted {
        CleanLeaves(kept, rest, rooted);
      } else {
        CleanLeaves(kept + [".."], rest, rooted);
      }
    }
  }

  lemma ParentCancels(kept: seq<string>, e: string, rest: seq<string>, rooted: bool)
    requires e != "" && e != "." && e != ".."
    ensures CleanFrom(kept, [e, ".."] + rest, rooted) == CleanFrom(kept, rest, rooted)
  {
    assert ([e, ".."] + rest)[1..] == [".."] + rest && ([".."] + rest)[1..] == rest;
    assert (kept + [e])[..|kept|] == kept;
  }

  /** Proper keys never share a file. */
  lemma ProperKeysInjective(root: string, key1: string, key2: string)
    requires ProperKey(key1) && ProperKey(key2)
    requires SysctlPath(root, key1) == SysctlPath(root, key2)
    ensures key1 == key2
  {
    SamePathIff(root, key1, key2);
    ProperKeyElements(key1);
    ProperKeyElements(key2);
    JoinSplit(key1, '.');
    JoinSplit(key2, '.');
  }

  lemma RootSlashFree(root: string)
    ensures forall e :: e in RootElements(root) ==> Free(e, Only('/'))
  {
    var r := if root == "" then "/" else root;
    PiecesFree(r, Only('/'));
    CleanMembers([], Split(r, '/'), HasPrefix(r, "/"));
  }

  lemma {:induction false} CleanMembers(kept: seq<string>, elems: seq<string>, rooted: bool)
    ensures forall e :: e in CleanFrom(kept, elems, rooted) ==> e in kept || e in elems || e == ".."
    decreases |elems|
  {
    if elems != [] {
      var e, rest := elems[0], elems[1..];
      if e == "" || e == "." {
        CleanMembers(kept, rest, rooted);
      } else if e != ".." {
        CleanMembers(kept + [e], rest, rooted);
      } else if kept != [] && kept[|kept| - 1] != ".." {
        CleanMembers(kept[..|kept| - 1], rest, rooted);
      } else if rooted {
        CleanMembers(kept, rest, rooted);
      } else {
        CleanMembers(kept + [".."], rest, rooted);
      }
    }
  }

  lemma {:induction false} JoinFree(parts: seq<string>, sep: Separator)
    requires forall e :: e in parts ==> Free(e, sep)
    requires !sep.Matches('.')
    ensures Free(Join(parts, "."), sep)
  {
    if |parts| > 1 {
      JoinFree(parts[1..], sep);
      FreeConcat(parts[0], ".", sep);
      FreeConcat(parts[0] + ".", Join(parts[1..], "."), sep);
    }
  }

  /** The proper key of the same file. */
  function Canonical(key: string): string { Join(NonEmpty(KeyElements(key)), ".") }

  lemma CanonicalIsProper(root: string, key: string)
    requires NonEmpty(KeyElements(key)) != []
    ensures ProperKey(Canonical(key)) && SysctlPath(root, Canonical(key)) == SysctlPath(root, key)
  {
    var elems := NonEmpty(KeyElements(key));
    KeyElementsPlain(key);
    JoinFree(elems, Only('/'));
    forall i | 0 <= i < |elems| ensures Free(elems[i], Only('.')) && elems[i] != "" { assert elems[i] in elems; }
    SplitJoin(elems, '.');
    ProperKeyElements(Canonical(key));
    SamePathIff(root, key, Canonical(key));
  }

  /** A key that names a file at all shares it with a proper key other than itself exactly when it is improper. */
  lemma CollidesIff(root: string, key: string)
    requires NonEmpty(KeyElements(key)) != []
    ensures (exists other :: ProperKey(other) && other != key && SysctlPath(root, other) == SysctlPath(root, key)) <==> !ProperKey(key)
  {
    CanonicalIsProper(root, key);
    if ProperKey(key) {
      forall other | ProperKey(other) && SysctlPath(root, other) == SysctlPath(root, key) ensures other == key {
        ProperKeysInjective(root, other, key);
      }
    }
  }

  /** A doubled dot and a slash are both stripped. */
  lemma ImproperKeysCollide(root: string)
    ensures SysctlPath(root, "a..b") == SysctlPath(root, "ab") == SysctlPath(root, "a/b")
  {
    assert DropDotDot("a..b") == "ab" by {
      assert "a..b"[1..] == "..b" && "..b"[2..] == "b";
    }
    assert DropDotDot("ab") == "ab" by { assert "ab"[1..] == "b"; }
    assert DropDotDot("a/b") == "a/b" by { assert "a/b"[1..] == "/b" && "/b"[1..] == "b"; }
    assert DropSlash("ab") == "ab" by { assert "ab"[1..] == "b" && "b"[1..] == ""; }
    assert DropSlash("a/b") == "ab" by { assert "a/b"[1..] == "/b" && "/b"[1..] == "b" && "b"[1..] == ""; }
  }
}
