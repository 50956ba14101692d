/**
The search path rtt_ros2::import hands to the component loader: a list of directories separated by
colons, searched from its beginning.
*/
module SearchPath {
  import opened Sequences

  /** The paths of a list without repetitions, each at its last occurrence. */
  function KeepLast(paths: seq<string>): seq<string> {
    if paths == [] then []
    else if paths[0] in paths[1..] then KeepLast(paths[1..])
    else [paths[0]] + KeepLast(paths[1..])
  }

  function Prepend(paths: seq<string>, componentPath: string): string {
    if paths == [] then componentPath else paths[0] + ":" + Prepend(paths[1..], componentPath)
  }

  /** The loop over the search paths in reverse order, prepending those not seen yet. */
  method BuildPathList(searchPaths: seq<string>, componentPath: string) returns (pathList: string)
    ensures pathList == Prepend(KeepLast(searchPaths), componentPath)
    ensures NoColons(searchPaths) <==>
            Split(pathList) == KeepLast(searchPaths) + Split(componentPath)
    ensures Split(pathList) == SplitAll(KeepLast(searchPaths)) + Split(componentPath)
  {
    pathList := componentPath;
    var seen: set<string> := {};
    var i := |searchPaths|;
    while i > 0
      invariant 0 <= i <= |searchPaths|
      invariant forall p :: p in seen <==> p in searchPaths[i..]
      invariant pathList == Prepend(KeepLast(searchPaths[i..]), componentPath)
    {
      i := i - 1;
      assert searchPaths[i..] == [searchPaths[i]] + searchPaths[i + 1..];
      assert searchPaths[i..][1..] == searchPaths[i + 1..];
      if searchPaths[i] !in seen {
        pathList := searchPaths[i] + ":" + pathList;
        seen := seen + {searchPaths[i]};
        assert ([searchPaths[i]] + KeepLast(searchPaths[i + 1..]))[1..] == KeepLast(searchPaths[i + 1..]);
      }
    }
    assert searchPaths[0..] == searchPaths;
    PathListIsSplit(searchPaths, componentPath);
    PrependIsSplitAll(KeepLast(searchPaths), componentPath);
  }

  /** s occurs after the last occurrence of t. */
  ghost predicate LastAfter(paths: seq<string>, t: string, s: string) {
    exists k :: 0 <= k < |paths| && paths[k] == s && t !in paths[k..]
  }

  /** The same paths, each once, in the order of their last occurrences. */
  lemma {:induction false} KeepLastOrders(paths: seq<string>)
    ensures var r := KeepLast(paths);
            && (forall p :: p in r <==> p in paths)
            && Distinct(r)
            && (forall i, j | 0 <= i < j < |r| :: LastAfter(paths, r[i], r[j]))
  {
    if paths == [] {
    } else {
      var rest := paths[1..];
      KeepLastOrders(rest);
      var q, r := KeepLast(rest), KeepLast(paths);
      assert paths == [paths[0]] + rest;
      forall i, j | 0 <= i < j < |r| ensures LastAfter(paths, r[i], r[j]) {
        if r == q {
          LastAfterTail(paths, r[i], r[j]);
        } else {
          assert r[j] == q[j - 1];
          if i == 0 { FirstOnlyOnce(rest, paths[0], r[j]); } else { assert r[i] == q[i - 1]; }
          LastAfterTail(paths, r[i], r[j]);
        }
      }
    }
  }

  lemma FirstOnlyOnce(rest: seq<string>, t: string, s: string)
    requires t !in rest && s in rest
    ensures LastAfter(rest, t, s)
  {
    var k :| 0 <= k < |rest| && rest[k] == s;
    assert t !in rest[k..];
  }

  lemma LastAfterTail(paths: seq<string>, t: string, s: string)
    requires paths != [] && LastAfter(paths[1..], t, s)
    ensures LastAfter(paths, t, s)
  {
    var rest := paths[1..];
    var k :| 0 <= k < |rest| && rest[k] == s && t !in rest[k..];
    assert paths[k + 1..] == rest[k..] && paths[k + 1] == s;
  }

  // ---------------------------------------------------------------------------------------------
  // The directories of a search path

  /** A character in front of a list of parts. */
  function Attach(c: char, parts: seq<string>): (r: seq<string>)
    requires parts != []
    ensures r != []
  {
    if c == ':' then [[]] + parts else [[c] + parts[0]] + parts[1..]
  }

  /** The parts of a string between its colons. */
  function Split(s: string): (parts: seq<string>)
    ensures parts != []
  {
    if s == [] then [[]] else Attach(s[0], Split(s[1..]))
  }

  function Join(parts: seq<string>): string
    requires parts != []
  {
    if |parts| == 1 then parts[0] else parts[0] + ":" + Join(parts[1..])
  }

  /** The parts have no colons, and with colons in between they are the string again. */
  lemma {:induction false} SplitIsExact(s: string)
    ensures Join(Split(s)) == s
    ensures forall p :: p in Split(s) ==> ':' !in p
  {
    if s == [] {
    } else {
      SplitIsExact(s[1..]);
      var rest, parts := Split(s[1..]), Split(s);
      if s[0] == ':' {
        assert parts[1..] == rest;
      } else if |rest| > 1 {
        assert parts[1..] == rest[1..];
      }
      assert s == [s[0]] + s[1..];
    }
  }

  lemma AttachConcat(c: char, parts: seq<string>, more: seq<string>)
    requires parts != []
    ensures Attach(c, parts) + more == Attach(c, parts + more)
  {
    assert (parts + more)[0] == parts[0] && (parts + more)[1..] == parts[1..] + more;
  }

  /** A colon separates the parts before it from those behind it. */
  lemma {:induction false} SplitConcat(s: string, t: string)
    ensures Split(s + (":" + t)) == Split(s) + Split(t)
  {
    if s == [] {
      assert s + (":" + t) == ":" + t;
      assert (":" + t)[0] == ':' && (":" + t)[1..] == t;
    } else {
      ConcatTail(s, ":" + t);
      SplitConcat(s[1..], t);
      AttachConcat(s[0], Split(s[1..]), Split(t));
    }
  }

  lemma ConcatTail(s: string, t: string)
    requires s != []
    ensures (s + t)[0] == s[0] && (s + t)[1..] == s[1..] + t
  {
  }

  lemma {:induction false} SplitWithoutColon(s: string)
    ensures |Split(s)| == 1 <==> ':' !in s
    ensures ':' !in s ==> Split(s) == [s]
  {
    if s == [] {
    } else {
      SplitWithoutColon(s[1..]);
      assert s == [s[0]] + s[1..];
    }
  }

  /** The directories of several search paths. */
  function SplitAll(paths: seq<string>): seq<string> {
    if paths == [] then [] else Split(paths[0]) + SplitAll(paths[1..])
  }

  /** The directories of the path list, for all inputs. */
  lemma {:induction false} PrependIsSplitAll(paths: seq<string>, componentPath: string)
    ensures Split(Prepend(paths, componentPath)) == SplitAll(paths) + Split(componentPath)
  {
    if paths == [] {
    } else {
      var rest := Prepend(paths[1..], componentPath);
      PrependIsSplitAll(paths[1..], componentPath);
      assert paths[0] + ":" + rest == paths[0] + (":" + rest);
      SplitConcat(paths[0], rest);
    }
  }

  predicate NoColons(paths: seq<string>) { forall p :: p in paths ==> ':' !in p }

  lemma {:induction false} PrependIsSplit(paths: seq<string>, componentPath: string)
    ensures var parts, end := Split(Prepend(paths, componentPath)), Split(componentPath);
            if NoColons(paths) then parts == paths + end else |parts| > |paths| + |end|
  {
    if paths == [] {
    } else {
      var rest := Prepend(paths[1..], componentPath);
      PrependIsSplit(paths[1..], componentPath);
      FirstPart(paths[0], rest);
      OneMorePath(paths, Split(paths[0] + ":" + rest), Split(rest), Split(componentPath));
    }
  }

  lemma OneMorePath(paths: seq<string>, parts: seq<string>, rest: seq<string>, end: seq<string>)
    requires paths != []
    requires if ':' in paths[0] then |parts| > 1 + |rest| else parts == [paths[0]] + rest
    requires if NoColons(paths[1..]) then rest == paths[1..] + end else |rest| > |paths[1..]| + |end|
    ensures if NoColons(paths) then parts == paths + end else |parts| > |paths| + |end|
  {
    NoColonsTail(paths);
    if NoColons(paths) {
      assert [paths[0]] + (paths[1..] + end) == paths + end;
    }
  }

  lemma NoColonsTail(paths: seq<string>)
    requires paths != []
    ensures NoColons(paths) <==> ':' !in paths[0] && NoColons(paths[1..])
  {
    forall p | p in paths ensures p == paths[0] || p in paths[1..] {}
  }

  lemma FirstPart(p: string, rest: string)
    ensures var parts := Split(p + ":" + rest);
            if ':' in p then |parts| > 1 + |Split(rest)| else parts == [p] + Split(rest)
  {
    SplitConcat(p, rest);
    assert p + ":" + rest == p + (":" + rest);
    SplitWithoutColon(p);
  }

  /** The directories are those of KeepLast, then the component path, iff no search path has a colon. */
  lemma PathListIsSplit(searchPaths: seq<string>, componentPath: string)
    ensures NoColons(searchPaths) <==>
            Split(Prepend(KeepLast(searchPaths), componentPath)) == KeepLast(searchPaths) + Split(componentPath)
  {
    KeepLastOrders(searchPaths);
    PrependIsSplit(KeepLast(searchPaths), componentPath);
  }
}
