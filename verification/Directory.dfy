/**
 Directories (fs.c, fs.h): a sequence of entries, the free ones with inode number 0, searched from
 the front.  Where live names are distinct it is a finite map from names to inode numbers.
 */
module Directory {
  const DIRSIZ: nat := 14

  datatype Dirent = Dirent(inum: nat, name: string)

  predicate Live(e: Dirent) { e.inum != 0 }

  /** The index of the first live entry of that name; |es| if there is none. */
  function First(es: seq<Dirent>, name: string): (k: nat)
    ensures k <= |es| && (k < |es| ==> Live(es[k]) && es[k].name == name)
    ensures forall i :: 0 <= i < k ==> !(Live(es[i]) && es[i].name == name)
  {
    if es == [] then 0 else if Live(es[0]) && es[0].name == name then 0 else 1 + First(es[1..], name)
  }

  /** The index of the first free entry; |es| if there is none. */
  function FirstFree(es: seq<Dirent>): (k: nat)
    ensures k <= |es| && (k < |es| ==> !Live(es[k])) && forall i :: 0 <= i < k ==> Live(es[i])
  {
    if es == [] then 0 else if !Live(es[0]) then 0 else 1 + FirstFree(es[1..])
  }

  /** Write entry k, which may be one past the end. */
  function Put(es: seq<Dirent>, k: nat, e: Dirent): seq<Dirent>
    requires k <= |es|
  {
    if k < |es| then es[k := e] else es + [e]
  }

  predicate Names(es: seq<Dirent>) {
    forall i, j :: 0 <= i < j < |es| && Live(es[i]) && Live(es[j]) ==> es[i].name != es[j].name
  }

  function NamesOf(es: seq<Dirent>): set<string> { set k | 0 <= k < |es| && Live(es[k]) :: es[k].name }

  /** The map a directory stands for. */
  function Mapped(es: seq<Dirent>): map<string, nat> {
    map n | n in NamesOf(es) :: if First(es, n) < |es| then es[First(es, n)].inum else 0
  }

  lemma LookupIsMap(es: seq<Dirent>, name: string)
    ensures name in Mapped(es) <==> First(es, name) < |es|
    ensures name in Mapped(es) ==> Mapped(es)[name] == es[First(es, name)].inum
  {
  }

  lemma Sole(es: seq<Dirent>, k: nat)
    requires Names(es) && k < |es| && Live(es[k])
    ensures First(es, es[k].name) == k
  {
  }

  /** Two directories that agree on the live entries of a name agree on the name. */
  lemma SameAt(es: seq<Dirent>, es': seq<Dirent>, n: string)
    requires Names(es) && Names(es')
    requires forall i :: 0 <= i < |es| && Live(es[i]) && es[i].name == n ==> i < |es'| && es'[i] == es[i]
    requires forall i :: 0 <= i < |es'| && Live(es'[i]) && es'[i].name == n ==> i < |es| && es'[i] == es[i]
    ensures n in Mapped(es') <==> n in Mapped(es)
    ensures n in Mapped(es) ==> Mapped(es')[n] == Mapped(es)[n]
  {
    hide Mapped, NamesOf;
    LookupIsMap(es, n);
    LookupIsMap(es', n);
    if First(es, n) < |es| {
      Sole(es', First(es, n));
    } else if First(es', n) < |es'| {
      Sole(es, First(es', n));
    }
  }

  /** dirlink adds one pair to the map. */
  lemma LinkIsUpdate(es: seq<Dirent>, k: nat, name: string, inum: nat)
    requires Names(es) && inum != 0 && name !in Mapped(es) && k <= |es| && (k < |es| ==> !Live(es[k]))
    ensures Names(Put(es, k, Dirent(inum, name))) && Mapped(Put(es, k, Dirent(inum, name))) == Mapped(es)[name := inum]
  {
    hide Mapped, NamesOf;
    var es' := Put(es, k, Dirent(inum, name));
    LookupIsMap(es, name);
    assert forall i :: 0 <= i < |es| && i != k ==> es'[i] == es[i];
    assert Names(es');
    LookupIsMap(es', name);
    Sole(es', k);
    forall n | n != name
      ensures (n in Mapped(es') <==> n in Mapped(es)) && (n in Mapped(es) ==> Mapped(es')[n] == Mapped(es)[n])
    {
      SameAt(es, es', n);
    }
  }

  /** unlink takes one pair out of it. */
  lemma UnlinkIsRemoval(es: seq<Dirent>, k: nat)
    requires Names(es) && k < |es| && Live(es[k])
    ensures Names(es[k := Dirent(0, "")]) && Mapped(es[k := Dirent(0, "")]) == Mapped(es) - {es[k].name}
  {
    hide Mapped, NamesOf;
    var es', name := es[k := Dirent(0, "")], es[k].name;
    assert forall i :: 0 <= i < |es| && i != k ==> es'[i] == es[i];
    LookupIsMap(es', name);
    forall n | n != name
      ensures (n in Mapped(es') <==> n in Mapped(es)) && (n in Mapped(es) ==> Mapped(es')[n] == Mapped(es)[n])
    {
      SameAt(es, es', n);
    }
  }

  // ---------------------------------------------------------------- names as 14 bytes

  /** The name a 14-byte field holds: up to a NUL, or all of it. */
  function NameOf(field: seq<char>): (n: string)
    ensures |n| <= |field| && n == field[..|n|] && '\0' !in n && (|n| < |field| ==> field[|n|] == '\0')
  {
    if field == [] || field[0] == '\0' then [] else [field[0]] + NameOf(field[1..])
  }

  /** namecmp, that is strncmp over DIRSIZ characters: fields compare equal exactly if they hold the same name. */
  method NameCmp(s: seq<char>, t: seq<char>) returns (equal: bool)
    requires |s| == |t| == DIRSIZ
    ensures equal <==> NameOf(s) == NameOf(t)
  {
    var i := 0;
    while i < DIRSIZ && s[i] != '\0' && s[i] == t[i]
      invariant 0 <= i <= DIRSIZ && s[..i] == t[..i] && '\0' !in s[..i]
    {
      i := i + 1;
    }
    equal := i == DIRSIZ || s[i] == t[i];
    Held(s, i);
    Held(t, i);
    assert i < DIRSIZ && s[i] == t[i] ==> NameOf(s) == s[..i] && NameOf(t) == t[..i];
  }

  lemma {:induction false} Held(field: seq<char>, i: nat)
    requires i <= |field| && '\0' !in field[..i]
    ensures |NameOf(field)| >= i && NameOf(field)[..i] == field[..i]
    ensures i < |field| && field[i] == '\0' ==> NameOf(field) == field[..i]
    ensures i == |field| ==> NameOf(field) == field
    ensures i < |field| && field[i] != '\0' ==> |NameOf(field)| > i && NameOf(field)[i] == field[i]
  {
    if i > 0 {
      assert field[1..][..i - 1] == field[..i][1..];
      Held(field[1..], i - 1);
    }
  }

  // ---------------------------------------------------------------- paths

  /** The elements of a path: its runs between slashes, cut to DIRSIZ. */
  function Elements(path: string): seq<string>
    decreases |path|
  {
    if path == [] then []
    else if path[0] == '/' then Elements(path[1..])
    else [Cut(path[..RunLength(path)])] + Elements(path[RunLength(path)..])
  }

  function RunLength(path: string): (n: nat)
    ensures n <= |path| && (path != [] && path[0] != '/' ==> n > 0) && '/' !in path[..n]
    ensures (n < |path| ==> path[n] == '/')
  {
    if path == [] || path[0] == '/' then 0 else 1 + RunLength(path[1..])
  }

  function Cut(element: string): string { if |element| >= DIRSIZ then element[..DIRSIZ] else element }

  lemma {:induction false} SkipSlashes(path: string, i: nat)
    requires i <= |path| && forall j :: 0 <= j < i ==> path[j] == '/'
    ensures Elements(path[i..]) == Elements(path)
  {
    if i == 0 {
      assert path[0..] == path;
    } else {
      assert path[1..][i - 1..] == path[i..];
      SkipSlashes(path[1..], i - 1);
    }
  }

  lemma {:induction false} RunIs(path: string, n: nat)
    requires n <= |path| && '/' !in path[..n] && (n < |path| ==> path[n] == '/')
    ensures RunLength(path) == n
  {
    if n > 0 {
      assert path[1..][..n - 1] == path[..n][1..];
      RunIs(path[1..], n - 1);
    }
  }

  lemma SlashesAt(path: string, a: nat, b: nat)
    requires a <= b <= |path| && forall j :: a <= j < b ==> path[j] == '/'
    ensures Elements(path[b..]) == Elements(path[a..])
  {
    assert path[a..][b - a..] == path[b..];
    SkipSlashes(path[a..], b - a);
  }

  lemma ElementAt(path: string, s: nat, e: nat)
    requires s < e <= |path| && '/' !in path[s..e] && (e < |path| ==> path[e] == '/')
    ensures Elements(path[s..]) == [Cut(path[s..e])] + Elements(path[e..])
  {
    var tail := path[s..];
    assert tail[..e - s] == path[s..e] && tail[e - s..] == path[e..] && tail[0] == path[s..e][0];
    RunIs(tail, e - s);
  }

  lemma EmptyPath(path: string)
    requires path != [] ==> path[0] != '/'
    ensures Elements(path) == [] <==> path == []
  {
  }

  /** skipelem: the first element and the path behind it; `more` is false for its null pointer. */
  method SkipElem(path: string) returns (more: bool, name: string, rest: string)
    ensures more <==> Elements(path) != []
    ensures more ==> Elements(path) == [name] + Elements(rest) && |rest| < |path| && (rest == "" <==> Elements(rest) == [])
    ensures !more ==> rest == ""
  {
    hide Elements, RunLength;
    var i := 0;
    while i < |path| && path[i] == '/'
      invariant 0 <= i <= |path| && forall j :: 0 <= j < i ==> path[j] == '/'
    {
      i := i + 1;
    }
    assert path[0..] == path;
    SlashesAt(path, 0, i);
    EmptyPath(path[i..]);
    if i == |path| {
      return false, "", "";
    }
    var s := i;
    while i < |path| && path[i] != '/'
      invariant s <= i <= |path| && '/' !in path[s..i]
    {
      i := i + 1;
    }
    name := if i - s >= DIRSIZ then path[s..s + DIRSIZ] else path[s..i];
    assert name == Cut(path[s..i]);
    ElementAt(path, s, i);
    var t := i;
    while i < |path| && path[i] == '/'
      invariant t <= i <= |path| && forall j :: t <= j < i ==> path[j] == '/'
    {
      i := i + 1;
    }
    SlashesAt(path, t, i);
    EmptyPath(path[i..]);
    return true, name, path[i..];
  }
}
