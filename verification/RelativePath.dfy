/**
 * make_relative_path of virtualenv.py over path components: the round trip through resolution, and that no
 * relative path between the two directories has fewer components or fewer ".." steps.
 */
module RelativePath {

  const PARENT := ".."

  /** A component that os.path.normpath leaves in an absolute path. */
  predicate Plain(part: string) {
    part != "" && part != "." && part != PARENT && '/' !in part
  }

  /** strip("/").split("/") of a normalised absolute path: plain components, or the single "" of the root. */
  predicate Normalised(parts: seq<string>) {
    parts == [""] || (parts != [] && forall i :: 0 <= i < |parts| ==> Plain(parts[i]))
  }

  /** The directory the components denote, from the root down. */
  function Directory(parts: seq<string>): seq<string> {
    if parts == [""] then [] else parts
  }

  /** Following `path` from the directory `at`: "" and "." stay, ".." goes up (the root is its own parent). */
  function Resolve(at: seq<string>, path: seq<string>): seq<string>
    decreases |path|
  {
    if path == [] then at else Resolve(Enter(at, path[0]), path[1..])
  }

  function Enter(at: seq<string>, part: string): seq<string> {
    if part == "" || part == "." then at
    else if part == PARENT then (if at == [] then at else at[..|at| - 1])
    else at + [part]
  }

  function CommonPrefix(a: seq<string>, b: seq<string>): (n: nat)
    ensures n <= |a| && n <= |b| && a[..n] == b[..n]
    ensures n < |a| && n < |b| ==> a[n] != b[n]
  {
    if a == [] || b == [] || a[0] != b[0] then 0
    else
      var n := CommonPrefix(a[1..], b[1..]);
      assert a[..n + 1] == [a[0]] + a[1..][..n] && b[..n + 1] == [b[0]] + b[1..][..n];
      n + 1
  }

  function Parents(n: nat): (ps: seq<string>)
    ensures |ps| == n && forall i :: 0 <= i < n ==> ps[i] == PARENT
  {
    seq(n, _ => PARENT)
  }

  /** The full_parts list the code joins: one ".." per remaining source part, then the remaining dest parts. */
  function Relative(source: seq<string>, dest: seq<string>): seq<string> {
    var n := CommonPrefix(source, dest);
    Parents(|source| - n) + dest[n..]
  }

  /** os.path.sep.join, with the special case for the empty list. */
  function Join(parts: seq<string>): string {
    if parts == [] then "" else if |parts| == 1 then parts[0] else parts[0] + "/" + Join(parts[1..])
  }

  function Text(parts: seq<string>): string {
    if parts == [] then "./" else Join(parts)
  }

  /** str.split("/"), which a reader of the path does. */
  function Split(s: string): (parts: seq<string>)
    ensures parts != []
  {
    if s == "" then [""]
    else
      var rest := Split(s[1..]);
      if s[0] == '/' then [""] + rest else [[s[0]] + rest[0]] + rest[1..]
  }

  /** The loop that pops common heads off both lists. */
  method PopCommon(source: seq<string>, dest: seq<string>) returns (sourceParts: seq<string>, destParts: seq<string>)
    ensures var n := CommonPrefix(source, dest); sourceParts == source[n..] && destParts == dest[n..]
  {
    destParts, sourceParts := dest, source;
    ghost var k := 0;
    while destParts != [] && sourceParts != [] && destParts[0] == sourceParts[0]
      invariant 0 <= k <= |source| && k <= |dest|
      invariant sourceParts == source[k..] && destParts == dest[k..]
      invariant CommonPrefix(source, dest) == k + CommonPrefix(sourceParts, destParts)
      decreases |destParts|
    {
      destParts := destParts[1..];
      sourceParts := sourceParts[1..];
      k := k + 1;
    }
  }

  lemma {:induction false} WholePrefix(a: seq<string>)
    ensures CommonPrefix(a, a) == |a| && Relative(a, a) == []
  {
    if a != [] {
      WholePrefix(a[1..]);
    }
  }

  method MakeRelativePath(source: seq<string>, dest: seq<string>, filename: seq<string>) returns (text: string)
    requires |filename| <= 1
    ensures text == Text(Relative(source, dest) + filename)
    ensures source == dest && filename == [] ==> text == "./"
  {
    if source == dest { WholePrefix(source); }
    hide Parents, Join, CommonPrefix;
    var sourceParts, destParts := PopCommon(source, dest);
    var fullParts := Parents(|sourceParts|) + destParts;
    if filename != [] {
      fullParts := fullParts + [filename[0]];
      assert [filename[0]] == filename;
    }
    assert fullParts == Relative(source, dest) + filename;
    if fullParts == [] { return "./"; }
    return Join(fullParts);
  }

  // ---------------------------------------------------------------- the round trip

  lemma {:induction false} ResolveAppend(at: seq<string>, a: seq<string>, b: seq<string>)
    ensures Resolve(at, a + b) == Resolve(Resolve(at, a), b)
    decreases |a|
  {
    if a == [] {
      assert a + b == b;
    } else {
      assert (a + b)[1..] == a[1..] + b;
      ResolveAppend(Enter(at, a[0]), a[1..], b);
    }
  }

  lemma {:induction false} ResolveParents(at: seq<string>, n: nat)
    ensures Resolve(at, Parents(n)) == at[..if n <= |at| then |at| - n else 0]
    decreases n
  {
    if n > 0 {
      assert Parents(n)[1..] == Parents(n - 1);
      if at == [] {
        ResolveParents(at, n - 1);
      } else {
        ResolveParents(at[..|at| - 1], n - 1);
      }
    }
  }

  lemma {:induction false} ResolvePlain(at: seq<string>, parts: seq<string>)
    requires forall i :: 0 <= i < |parts| ==> Plain(parts[i])
    ensures Resolve(at, parts) == at + parts
    decreases |parts|
  {
    if parts != [] {
      ResolvePlain(at + [parts[0]], parts[1..]);
      assert at + [parts[0]] + parts[1..] == at + parts;
    }
  }

  lemma ResolveNothing(at: seq<string>)
    ensures Resolve(at, []) == at && Resolve(at, [""]) == at
  {
    assert [""][1..] == [];
  }

  /** Resolved from the source directory, the relative path is the destination. */
  lemma RelativeResolves(source: seq<string>, dest: seq<string>)
    requires Normalised(source) && Normalised(dest)
    ensures Resolve(Directory(source), Relative(source, dest)) == Directory(dest)
  {
    hide Resolve, CommonPrefix;
    var n := CommonPrefix(source, dest);
    var at := Directory(source);
    ResolveAppend(at, Parents(|source| - n), dest[n..]);
    ResolveParents(at, |source| - n);
    if dest == [""] {
      ResolveNothing(at[..if |source| - n <= |at| then |at| - (|source| - n) else 0]);
      if n == 0 {
        assert dest[n..] == [""];
      } else {
        assert dest[n..] == [] && source[..n][0] == dest[..n][0];
      }
    } else {
      ResolvePlain(at[..if source == [""] then 0 else n], dest[n..]);
      assert dest[..n] + dest[n..] == dest;
    }
  }

  /** Joining and splitting loses nothing: the round trip holds for the text the function returns. */
  lemma {:induction false} SplitJoin(parts: seq<string>)
    requires parts != [] && forall i :: 0 <= i < |parts| ==> '/' !in parts[i]
    ensures Split(Join(parts)) == parts
    decreases |parts|
  {
    if |parts| == 1 {
      SplitWord(parts[0], "");
      assert parts[0] + "" == parts[0];
      assert parts == [parts[0]];
    } else {
      SplitJoin(parts[1..]);
      SplitWord(parts[0], "/" + Join(parts[1..]));
      assert parts[0] + "/" + Join(parts[1..]) == parts[0] + ("/" + Join(parts[1..]));
      assert ("/" + Join(parts[1..]))[1..] == Join(parts[1..]);
      assert parts == [parts[0]] + parts[1..];
    }
  }

  lemma {:induction false} SplitWord(word: string, rest: string)
    requires '/' !in word && (rest == "" || rest[0] == '/')
    ensures Split(word + rest) == [word] + Split(rest)[1..]
    decreases |word|
  {
    if word == "" {
      assert word + rest == rest;
    } else {
      assert (word + rest)[1..] == word[1..] + rest;
      SplitWord(word[1..], rest);
      assert [word[0]] + word[1..] == word;
    }
  }

  lemma NoSlashes(source: seq<string>, dest: seq<string>)
    requires Normalised(source) && Normalised(dest)
    ensures forall i :: 0 <= i < |Relative(source, dest)| ==> '/' !in Relative(source, dest)[i]
  {
  }

  lemma ResolveDots(at: seq<string>)
    ensures Resolve(at, [".", ""]) == at == Resolve(at, [])
  {
    assert [".", ""][1..] == [""] && [""][1..] == [];
  }

  /** The same with the file name, if there is one: it is looked up in the destination directory. */
  lemma RelativeTextResolves(source: seq<string>, dest: seq<string>, filename: seq<string>)
    requires Normalised(source) && Normalised(dest)
    requires |filename| <= 1 && forall i :: 0 <= i < |filename| ==> '/' !in filename[i]
    ensures Resolve(Directory(source), Split(Text(Relative(source, dest) + filename))) == Resolve(Directory(dest), filename)
  {
    var parts := Relative(source, dest) + filename;
    hide Relative, Resolve, Directory, Split, Plain, Normalised;
    RelativeResolves(source, dest);
    ResolveAppend(Directory(source), Relative(source, dest), filename);
    NoSlashes(source, dest);
    if parts == [] {
      assert "./" == Join([".", ""]);
      SplitJoin([".", ""]);
      ResolveDots(Directory(source));
    } else {
      SplitJoin(parts);
    }
  }

  // ---------------------------------------------------------------- minimality

  function CountParents(path: seq<string>): nat {
    if path == [] then 0 else (if path[0] == PARENT then 1 else 0) + CountParents(path[1..])
  }

  lemma {:induction false} CountOfParents(n: nat, parts: seq<string>)
    requires forall i :: 0 <= i < |parts| ==> Plain(parts[i])
    ensures CountParents(Parents(n) + parts) == n
    decreases n + |parts|
  {
    var all := Parents(n) + parts;
    if n > 0 {
      assert all[1..] == Parents(n - 1) + parts;
      CountOfParents(n - 1, parts);
    } else if parts != [] {
      assert all[1..] == Parents(0) + parts[1..];
      CountOfParents(0, parts[1..]);
    }
  }

  /** Any path that leads from `at` to a directory keeps some prefix of `at`; leaving the rest costs one ".." each. */
  lemma {:induction false} StepsNeeded(at: seq<string>, path: seq<string>)
    ensures exists d :: 0 <= d <= |at| && d <= |Resolve(at, path)| && at[..d] == Resolve(at, path)[..d]
                        && CountParents(path) >= |at| - d
                        && |path| >= (|at| - d) + (|Resolve(at, path)| - d)
    decreases |path|
  {
    if path == [] {
      assert at[..|at|] == Resolve(at, path)[..|at|];
    } else {
      var next := Enter(at, path[0]);
      var end := Resolve(at, path);
      StepsNeeded(next, path[1..]);
      var d :| 0 <= d <= |next| && d <= |end| && next[..d] == end[..d] && CountParents(path[1..]) >= |next| - d
               && |path[1..]| >= (|next| - d) + (|end| - d);
      var d' := if d <= |at| then d else |at|;
      assert at[..d'] == next[..d'] == next[..d][..d'] == end[..d][..d'] == end[..d'];
    }
  }

  /** What any path between two directories costs. */
  lemma LowerBound(at: seq<string>, path: seq<string>)
    ensures var n := CommonPrefix(at, Resolve(at, path));
            CountParents(path) >= |at| - n && |path| >= (|at| - n) + (|Resolve(at, path)| - n)
  {
    var end := Resolve(at, path);
    var n := CommonPrefix(at, end);
    StepsNeeded(at, path);
    var d :| 0 <= d <= |at| && d <= |end| && at[..d] == end[..d] && CountParents(path) >= |at| - d
             && |path| >= (|at| - d) + (|end| - d);
    assert forall i :: 0 <= i < d ==> at[i] == at[..d][i] == end[..d][i] == end[i];
  }

  ghost predicate Leads(source: seq<string>, path: seq<string>, dest: seq<string>) {
    Resolve(Directory(source), path) == Directory(dest)
  }

  /** No path has fewer ".." steps, unless the source directory is the root and the destination is not. */
  lemma FewestParents(source: seq<string>, dest: seq<string>)
    requires Normalised(source) && Normalised(dest)
    ensures (forall path :: Leads(source, path, dest) ==> CountParents(Relative(source, dest)) <= CountParents(path))
            <==> (source == [""] ==> dest == [""])
  {
    RelativeCost(source, dest);
    if source == [""] && dest != [""] {
      ResolvePlain([], dest);
      assert [] + dest == dest;
      assert Leads(source, dest, dest);
      CountOfParents(0, dest);
      assert Parents(0) + dest == dest;
    }
    forall path | Leads(source, path, dest) && (source == [""] ==> dest == [""])
      ensures CountParents(Relative(source, dest)) <= CountParents(path)
    {
      LowerBound(Directory(source), path);
    }
  }

  /** No path has fewer components, unless exactly one of the two directories is the root. */
  lemma FewestComponents(source: seq<string>, dest: seq<string>)
    requires Normalised(source) && Normalised(dest)
    ensures (forall path :: Leads(source, path, dest) ==> |Relative(source, dest)| <= |path|)
            <==> (source == [""] <==> dest == [""])
  {
    RelativeCost(source, dest);
    if source == [""] && dest != [""] {
      ResolvePlain([], dest);
      assert [] + dest == dest;
      assert Leads(source, dest, dest);
    } else if source != [""] && dest == [""] {
      ResolveParents(source, |source|);
      assert Leads(source, Parents(|source|), dest);
    }
    forall path | Leads(source, path, dest) && (source == [""] <==> dest == [""])
      ensures |Relative(source, dest)| <= |path|
    {
      LowerBound(Directory(source), path);
    }
  }

  lemma RelativeCost(source: seq<string>, dest: seq<string>)
    requires Normalised(source) && Normalised(dest)
    ensures var n := CommonPrefix(source, dest);
            && |Relative(source, dest)| == |source| - n + |dest| - n
            && CountParents(Relative(source, dest)) == |source| - n
  {
    var n := CommonPrefix(source, dest);
    if dest == [""] && n == 0 {
      CountAppend(Parents(|source|), [""]);
      CountOfParents(|source|, []);
      assert Parents(|source|) + [] == Parents(|source|);
      assert dest[0..] == [""];
    } else {
      CountOfParents(|source| - n, dest[n..]);
    }
  }

  lemma {:induction false} CountAppend(a: seq<string>, b: seq<string>)
    ensures CountParents(a + b) == CountParents(a) + CountParents(b)
    decreases |a|
  {
    if a == [] {
      assert a + b == b;
    } else {
      assert (a + b)[1..] == a[1..] + b;
      CountAppend(a[1..], b);
    }
  }
}
