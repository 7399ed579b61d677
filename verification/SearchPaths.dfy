/** Building and splitting separator-joined path lists (manifest_file.cpp, api_layer_interface.cpp).
    Which files exist is left to the file system: a search is the sequence of paths it looks at. */
module SearchPaths {

  import opened Wrappers

  const PATH_SEPARATOR: char := ':'
  const DIRECTORY_SYMBOL: char := '/'

  predicate SeparatorFree(s: string) { PATH_SEPARATOR !in s }

  /** std::string::find_first_of(PATH_SEPARATOR, from), with -1 for npos. */
  function FindSeparator(s: string, from: nat): (at: int)
    ensures at == -1 <==> forall i | from <= i < |s| :: s[i] != PATH_SEPARATOR
    ensures at != -1 ==>
      from <= at < |s| && s[at] == PATH_SEPARATOR && forall i | from <= i < at :: s[i] != PATH_SEPARATOR
    decreases |s| - from
  {
    if from >= |s| then -1 else if s[from] == PATH_SEPARATOR then from else FindSeparator(s, from + 1)
  }

  /** The entries between separators, empty ones included. */
  function Split(s: string): (r: seq<string>)
    ensures |r| > 0
    decreases |s|
  {
    var at := FindSeparator(s, 0);
    if at == -1 then [s] else [s[..at]] + Split(s[at + 1..])
  }

  function Join(entries: seq<string>): string
    requires |entries| > 0
  {
    if |entries| == 1 then entries[0] else entries[0] + [PATH_SEPARATOR] + Join(entries[1..])
  }

  lemma SplitFirst(e: string, rest: string)
    requires SeparatorFree(e)
    ensures Split(e) == [e]
    ensures Split(e + [PATH_SEPARATOR] + rest) == [e] + Split(rest)
  {
    var s := e + [PATH_SEPARATOR] + rest;
    var at := FindSeparator(s, 0);
    assert s[|e|] == PATH_SEPARATOR;
    assert forall i | 0 <= i < |e| :: s[i] == e[i] != PATH_SEPARATOR;
    assert at == |e|;
    assert s[..at] == e && s[at + 1..] == rest;
  }

  /** Split undoes Join. */
  lemma {:induction false} SplitJoin(entries: seq<string>)
    requires |entries| > 0 && forall e | e in entries :: SeparatorFree(e)
    ensures Split(Join(entries)) == entries
  {
    hide Split, Join, SeparatorFree;
    var e, rest := entries[0], entries[1..];
    assert entries == [e] + rest && e in entries;
    JoinCons(e, rest);
    if rest == [] {
      SplitFirst(e, "");
    } else {
      assert forall x | x in rest :: x in entries;
      SplitJoin(rest);
      SplitFirst(e, Join(rest));
    }
  }

  lemma JoinCons(e: string, rest: seq<string>)
    ensures Join([e] + rest) == if rest == [] then e else e + [PATH_SEPARATOR] + Join(rest)
  {
    assert ([e] + rest)[1..] == rest;
  }

  /** Join undoes Split. */
  lemma {:induction false} JoinSplit(s: string)
    ensures Join(Split(s)) == s && forall e | e in Split(s) :: SeparatorFree(e)
    decreases |s|
  {
    var at := FindSeparator(s, 0);
    if at != -1 {
      JoinSplit(s[at + 1..]);
      assert s == s[..at] + [PATH_SEPARATOR] + s[at + 1..];
    }
  }

  // ---------- Splitting a search path ----------

  function NonEmpty(entries: seq<string>): seq<string> {
    if entries == [] then [] else (if entries[0] == "" then [] else [entries[0]]) + NonEmpty(entries[1..])
  }

  /** What AddFilesInPath looks at: a leading separator makes one empty visit, other empty entries none. */
  function Visits(path: string): seq<string> {
    (if path != "" && path[0] == PATH_SEPARATOR then [""] else []) + NonEmpty(Split(path))
  }

  lemma SplitAt(path: string, last: nat)
    requires last <= |path|
    ensures var found := FindSeparator(path, last);
      Split(path[last..]) == if found == -1 then [path[last..]] else [path[last..found]] + Split(path[found + 1..])
  {
    hide Split;
    var found := FindSeparator(path, last);
    if found == -1 {
      SplitFirst(path[last..], "");
    } else {
      SplitFirst(path[last..found], path[found + 1..]);
      assert path[last..] == path[last..found] + [PATH_SEPARATOR] + path[found + 1..];
    }
  }

  lemma NonEmptyCons(e: string, rest: seq<string>)
    ensures NonEmpty([e] + rest) == (if e == "" then [] else [e]) + NonEmpty(rest)
  {
    assert ([e] + rest)[1..] == rest;
  }

  /** The visits still to come from index `i` on. */
  function Remaining(path: string, i: nat): seq<string>
    requires i <= |path|
  {
    NonEmpty(Split(path[i..]))
  }

  lemma RemainingAt(path: string, i: nat)
    requires i <= |path|
    ensures var found := FindSeparator(path, i);
      Remaining(path, i) ==
        if found == -1 then (if i < |path| then [path[i..]] else [])
        else (if found == i then [] else [path[i..found]]) + Remaining(path, found + 1)
  {
    hide Split, NonEmpty;
    var found := FindSeparator(path, i);
    SplitAt(path, i);
    NonEmptyNone();
    if found == -1 {
      NonEmptyCons(path[i..], []);
      assert [path[i..]] + [] == [path[i..]];
    } else {
      NonEmptyCons(path[i..found], Split(path[found + 1..]));
    }
  }

  lemma NonEmptyNone()
    ensures NonEmpty([]) == []
  {}

  lemma VisitsAreRemaining(path: string)
    ensures Visits(path) == (if FindSeparator(path, 0) == 0 then [""] else []) + Remaining(path, 0)
  {
    hide Split, NonEmpty;
    assert path[0..] == path;
  }

  /** The visits so far, and those from index `i` on, are all of them. */
  ghost predicate Seen(path: string, visited: seq<string>, i: nat) {
    i <= |path| && Visits(path) == visited + Remaining(path, i)
  }

  lemma SeenFirst(path: string)
    requires FindSeparator(path, 0) != -1
    ensures var found := FindSeparator(path, 0); Seen(path, [path[0..found]], found + 1)
  {
    hide Visits, Remaining;
    VisitsAreRemaining(path);
    RemainingAt(path, 0);
    var found := FindSeparator(path, 0);
    var more := Remaining(path, found + 1);
    assert [] + more == more && [] + ([path[0..found]] + more) == [path[0..found]] + more;
  }

  lemma Regrouped(a: seq<string>, b: seq<string>, c: seq<string>)
    ensures (a + b) + c == a + (b + c)
  {}

  lemma SeenNext(path: string, visited: seq<string>, i: nat)
    requires Seen(path, visited, i) && FindSeparator(path, i) != -1
    ensures var found := FindSeparator(path, i);
      Seen(path, if found == i then visited else visited + [path[i..found]], found + 1)
  {
    hide Visits, Remaining;
    RemainingAt(path, i);
    var found := FindSeparator(path, i);
    var more := Remaining(path, found + 1);
    if found == i {
      assert [] + more == more;
    } else {
      Regrouped(visited, [path[i..found]], more);
    }
  }

  lemma SeenLast(path: string, visited: seq<string>, i: nat)
    requires FindSeparator(path, i) == -1 && (if i == 0 then visited == [] else Seen(path, visited, i))
    ensures Visits(path) == if i < |path| then visited + [path[i..]] else visited
  {
    hide Visits, Remaining;
    VisitsAreRemaining(path);
    if i <= |path| {
      RemainingAt(path, i);
    }
  }

  /** AddFilesInPath; `visited` collects the arguments of CheckAllFilesInThePath. */
  method AddFilesInPath(searchPath: string) returns (visited: seq<string>)
    ensures visited == Visits(searchPath)
  {
    hide Visits, Remaining, Seen;
    visited := [];
    var lastFound := 0;
    var found := FindSeparator(searchPath, 0);
    while found != -1
      invariant 0 <= lastFound <= |searchPath| && found == FindSeparator(searchPath, lastFound)
      invariant lastFound > 0 ==> found != lastFound
      invariant if lastFound == 0 then visited == [] else Seen(searchPath, visited, lastFound)
      decreases |searchPath| - lastFound
    {
      if lastFound == 0 {
        SeenFirst(searchPath);
      } else {
        SeenNext(searchPath, visited, lastFound);
      }
      assert [] + [searchPath[0..found]] == [searchPath[0..found]];
      visited := visited + [searchPath[lastFound..found]];
      lastFound := found;
      while found == lastFound
        invariant 0 <= lastFound <= |searchPath|
        invariant found == lastFound ==> lastFound < |searchPath| && Seen(searchPath, visited, found + 1)
        invariant found != lastFound ==>
          0 < lastFound && found == FindSeparator(searchPath, lastFound) && Seen(searchPath, visited, lastFound)
        decreases |searchPath| - lastFound, found == lastFound
      {
        lastFound := found + 1;
        found := FindSeparator(searchPath, lastFound);
        if found == lastFound {
          SeenNext(searchPath, visited, lastFound);
        }
      }
    }
    SeenLast(searchPath, visited, lastFound);
    if lastFound < |searchPath| {
      visited := visited + [searchPath[lastFound..]];
    }
  }

  // ---------- Building a search path ----------

  predicate IsSlash(c: char) { c == '\\' || c == '/' }

  /** One visited path: a directory symbol where one is missing, then the relative path. The character looked at is
      the one before the end of the entry; `front` is what stands in memory in front of an empty entry. */
  function Entry(directories: bool, relative: string, front: char, e: string): string {
    var last := if e == "" then front else e[|e| - 1];
    e + (if directories && !IsSlash(last) then [DIRECTORY_SYMBOL] else []) + relative
  }

  /** A directory's path, case by case; a file's is the entry and the relative path. */
  lemma EntryText(relative: string, front: char, dir: string, c: char)
    ensures c == '/' || c == '\\' ==> Entry(true, relative, front, dir + [c]) == dir + [c] + relative
    ensures c != '/' && c != '\\' ==> Entry(true, relative, front, dir + [c]) == dir + [c] + "/" + relative
    ensures Entry(true, relative, front, "") == if front == '/' || front == '\\' then relative else "/" + relative
    ensures Entry(false, relative, front, dir) == dir + relative
  {
    assert (dir + [c])[|dir|] == c;
  }

  function Completed(directories: bool, relative: string, front: char, piece: string): string {
    Entry(directories, relative, front, piece) + [PATH_SEPARATOR]
  }

  /** The appended text for the entries of a list; every entry but the first drags its separator along. */
  function Copied(directories: bool, relative: string, front: char, lead: string, entries: seq<string>): string
    requires |entries| > 0
    decreases |entries|
  {
    if |entries| == 1 then
      if entries[0] == "" then "" else Completed(directories, relative, front, lead + entries[0])
    else
      Completed(directories, relative, front, lead + entries[0]) +
      Copied(directories, relative, PATH_SEPARATOR, [PATH_SEPARATOR], entries[1..])
  }

  /** A list of one character is taken for a list whose last separator was just copied. */
  function CopiedList(directories: bool, relative: string, front: char, cur: string): string {
    if |cur| == 1 && SeparatorFree(cur) then "" else Copied(directories, relative, front, "", Split(cur))
  }

  /** The text still to append from index `start` on. */
  function RemainingCopy(directories: bool, relative: string, front: char, lead: string, cur: string, start: nat)
    : string
    requires start <= |cur|
  {
    Copied(directories, relative, front, lead, Split(cur[start..]))
  }

  /** One step of copying, with the rest of the list from index `start` on. */
  lemma CopiedAt(directories: bool, relative: string, front: char, lead: string, cur: string, start: nat)
    requires start <= |cur|
    ensures var found := FindSeparator(cur, start);
      RemainingCopy(directories, relative, front, lead, cur, start) ==
        if found == -1 then
          if start == |cur| then "" else Completed(directories, relative, front, lead + cur[start..])
        else
          Completed(directories, relative, front, lead + cur[start..found]) +
          RemainingCopy(directories, relative, PATH_SEPARATOR, [PATH_SEPARATOR], cur, found + 1)
  {
    hide Split, Completed, FindSeparator;
    SplitAt(cur, start);
    var found := FindSeparator(cur, start);
    if found != -1 {
      CopiedCons(directories, relative, front, lead, cur[start..found], Split(cur[found + 1..]));
    }
  }

  lemma CopiedCons(directories: bool, relative: string, front: char, lead: string, e: string, rest: seq<string>)
    requires |rest| > 0
    ensures Copied(directories, relative, front, lead, [e] + rest) ==
      Completed(directories, relative, front, lead + e) +
      Copied(directories, relative, PATH_SEPARATOR, [PATH_SEPARATOR], rest)
  {
    hide Completed;
    assert ([e] + rest)[1..] == rest;
  }

  lemma CopiedListIs(directories: bool, relative: string, front: char, cur: string)
    ensures CopiedList(directories, relative, front, cur) ==
      if |cur| == 1 && SeparatorFree(cur) then "" else RemainingCopy(directories, relative, front, "", cur, 0)
  {
    hide Split, Copied;
    assert cur[0..] == cur;
  }

  /** The loop body: the piece of the list from index `from` up to `to`, completed. Where that is a list of
      directories, the character before `to` is read, and for an empty piece at the start that is out of range. */
  method AppendPiece(directories: bool, relative: string, front: char, cur: string, from: nat, to: nat,
      outputPath: string)
    returns (r: string, inRange: bool)
    requires from <= to <= |cur| && (from == to ==> to == 0)
    ensures r == outputPath + Completed(directories, relative, front, cur[from..to])
    ensures inRange <==> (directories ==> to > 0)
  {
    r, inRange := outputPath + cur[from..to], true;
    if directories {
      inRange := to - 1 >= 0;
      var last := if to - 1 >= 0 then cur[to - 1] else front;
      if last != '\\' && last != '/' {
        r := r + [DIRECTORY_SYMBOL];
      }
    }
    r := r + relative;
    r := r + [PATH_SEPARATOR];
    var piece := cur[from..to];
    var last := if piece == "" then front else piece[|piece| - 1];
    var symbol := if directories && !IsSlash(last) then [DIRECTORY_SYMBOL] else [];
    assert r == outputPath + ((piece + symbol + relative) + [PATH_SEPARATOR]);
  }

  predicate NoLeadingSeparator(cur: string) { cur != "" ==> cur[0] != PATH_SEPARATOR }

  /** CopyIncludedPaths, where `front` stands in memory in front of the list. Every read stays within the list exactly
      unless it is a list of directories that starts with a separator. */
  method CopyIncludedPaths(directories: bool, curPath: string, relative: string, front: char, outputPath: string)
    returns (r: string, inRange: bool)
    ensures r == outputPath + CopiedList(directories, relative, front, curPath)
    ensures inRange <==> (directories ==> NoLeadingSeparator(curPath))
  {
    hide Copying, Completed, CopiedList, FindSeparator;
    r, inRange := outputPath, true;
    CopyingStart(directories, relative, front, curPath, outputPath);
    if curPath != "" {
      var lastFound := 0;
      var found := FindSeparator(curPath, 0);
      ghost var start := 0;
      while found != -1
        invariant 0 <= lastFound <= start <= |curPath| && lastFound < |curPath|
        invariant found == FindSeparator(curPath, start)
        invariant start == 0 || start == lastFound + 1
        invariant start == 0 ==> lastFound == 0 && inRange
        invariant start > 0 ==> (inRange <==> (directories ==> NoLeadingSeparator(curPath)))
        invariant Copying(directories, relative, front, curPath, outputPath, lastFound, start, r)
        decreases |curPath| - start
      {
        CopyingStep(directories, relative, front, curPath, outputPath, lastFound, start, r);
        var ok;
        r, ok := AppendPiece(directories, relative, front, curPath, lastFound, found, r);
        inRange := inRange && ok;
        lastFound := found;
        found := FindSeparator(curPath, found + 1);
        start := lastFound + 1;
      }
      CopyingEnd(directories, relative, front, curPath, outputPath, lastFound, start, r);
      var lastChar := |curPath| - 1;
      if lastFound != lastChar {
        var ok;
        r, ok := AppendPiece(directories, relative, front, curPath, lastFound, |curPath|, r);
        inRange := inRange && ok;
        assert curPath[lastFound..|curPath|] == curPath[lastFound..];
      }
    }
  }

  /** The state of the copying loop: pieces before `start` are copied, the separator before it is not. */
  ghost predicate Copying(directories: bool, relative: string, front: char, cur: string, outputPath: string,
      lastFound: nat, start: nat, r: string)
  {
    && lastFound <= start <= |cur| && lastFound < |cur|
    && ((start == 0 && r == outputPath) || (start == lastFound + 1 && cur[lastFound] == PATH_SEPARATOR))
    && r + RemainingCopy(directories, relative, if start == 0 then front else PATH_SEPARATOR, cur[lastFound..start],
             cur, start) ==
       outputPath + RemainingCopy(directories, relative, front, "", cur, 0)
  }

  lemma CopyingStart(directories: bool, relative: string, front: char, cur: string, outputPath: string)
    ensures cur != "" ==> Copying(directories, relative, front, cur, outputPath, 0, 0, outputPath)
    ensures cur == "" ==> outputPath == outputPath + CopiedList(directories, relative, front, cur)
  {
    hide RemainingCopy, CopiedList;
    CopiedListIs(directories, relative, front, cur);
    CopiedAt(directories, relative, front, "", cur, 0);
    if cur != "" {
      assert cur[0..0] == "";
    }
  }

  /** Only an empty piece at the start looks at what is in front. */
  lemma FrontOfPiece(directories: bool, relative: string, f: char, g: char, piece: string)
    requires piece != ""
    ensures Completed(directories, relative, f, piece) == Completed(directories, relative, g, piece)
  {}

  lemma CopyingStep(directories: bool, relative: string, front: char, cur: string, outputPath: string,
      lastFound: nat, start: nat, r: string)
    requires Copying(directories, relative, front, cur, outputPath, lastFound, start, r)
    requires FindSeparator(cur, start) != -1
    ensures var found := FindSeparator(cur, start);
      Copying(directories, relative, front, cur, outputPath, found, found + 1,
              r + Completed(directories, relative, front, cur[lastFound..found]))
  {
    hide RemainingCopy, Completed;
    var found := FindSeparator(cur, start);
    var f := if start == 0 then front else PATH_SEPARATOR;
    CopiedAt(directories, relative, f, cur[lastFound..start], cur, start);
    SlicesMeet(cur, lastFound, start, found);
    if start > 0 {
      FrontOfPiece(directories, relative, f, front, cur[lastFound..found]);
    }
    Regroup(r, Completed(directories, relative, front, cur[lastFound..found]),
            RemainingCopy(directories, relative, PATH_SEPARATOR, [PATH_SEPARATOR], cur, found + 1));
  }

  lemma CopyingEnd(directories: bool, relative: string, front: char, cur: string, outputPath: string,
      lastFound: nat, start: nat, r: string)
    requires Copying(directories, relative, front, cur, outputPath, lastFound, start, r)
    requires FindSeparator(cur, start) == -1
    ensures outputPath + CopiedList(directories, relative, front, cur) ==
      if lastFound != |cur| - 1 then r + Completed(directories, relative, front, cur[lastFound..]) else r
  {
    hide RemainingCopy, Completed, CopiedList;
    var f := if start == 0 then front else PATH_SEPARATOR;
    CopiedListIs(directories, relative, front, cur);
    CopiedAt(directories, relative, f, cur[lastFound..start], cur, start);
    SlicesMeet(cur, lastFound, start, |cur|);
    FrontOfPiece(directories, relative, f, front, cur[lastFound..]);
    if start == |cur| {
      assert r + "" == r;
    }
  }

  lemma SlicesMeet(s: string, i: nat, j: nat, k: nat)
    requires i <= j <= k <= |s|
    ensures s[i..j] + s[j..k] == s[i..k]
    ensures k == |s| ==> s[i..j] + s[j..] == s[i..]
    ensures k < |s| ==> s[k..k + 1] == [s[k]]
  {}

  lemma Regroup(a: string, b: string, c: string)
    ensures (a + b) + c == a + (b + c)
  {}

  // ---------- The two together ----------

  /** Cutting after a separator cuts the non-empty entries in two. */
  lemma {:induction false} NonEmptyConcat(a: string, b: string)
    requires a == "" || a[|a| - 1] == PATH_SEPARATOR
    ensures NonEmpty(Split(a + b)) == NonEmpty(Split(a)) + NonEmpty(Split(b))
    decreases |a|
  {
    hide Split, NonEmpty;
    if a == "" {
      assert a + b == b;
      NothingToSplit();
    } else {
      var at := FindSeparator(a, 0);
      assert a[|a| - 1] == PATH_SEPARATOR;
      var e, rest := a[..at], a[at + 1..];
      assert a == e + [PATH_SEPARATOR] + rest;
      assert a + b == e + [PATH_SEPARATOR] + (rest + b);
      SplitFirst(e, rest);
      SplitFirst(e, rest + b);
      NonEmptyConcat(rest, b);
      NonEmptyCons(e, Split(rest));
      NonEmptyCons(e, Split(rest + b));
    }
  }

  lemma NothingToSplit()
    ensures Split("") == [""] && NonEmpty([""]) == [] && NonEmpty([]) == []
  {
    SplitFirst("", "");
    NonEmptyCons("", []);
  }

  lemma VisitOne(lead: string, e: string)
    requires SeparatorFree(e) && (lead == "" || lead == [PATH_SEPARATOR])
    ensures NonEmpty(Split(lead + e + [PATH_SEPARATOR])) == NonEmpty([e])
  {
    hide Split, NonEmpty;
    NonEmptyCons(e, []);
    assert [e] + [] == [e];
    SplitFirst(e, "");
    NothingToSplit();
    assert e + [PATH_SEPARATOR] + "" == e + [PATH_SEPARATOR];
    NonEmptyCons(e, [""]);
    if lead != "" {
      SplitFirst("", e + [PATH_SEPARATOR]);
      assert lead + e + [PATH_SEPARATOR] == "" + [PATH_SEPARATOR] + (e + [PATH_SEPARATOR]);
      NonEmptyCons("", Split(e + [PATH_SEPARATOR]));
    } else {
      assert lead + e + [PATH_SEPARATOR] == e + [PATH_SEPARATOR];
    }
  }

  function DropLastEmpty(entries: seq<string>): seq<string>
    requires |entries| > 0
  {
    if entries[|entries| - 1] == "" then entries[..|entries| - 1] else entries
  }

  /** Each entry completed. Of two entries the second has a separator in front of it. */
  function Entries(relative: string, front: char, entries: seq<string>): (r: seq<string>)
    ensures |r| == |entries|
    decreases |entries|
  {
    if entries == [] then []
    else [Entry(true, relative, front, entries[0])] + Entries(relative, PATH_SEPARATOR, entries[1..])
  }

  lemma EntriesCons(relative: string, front: char, e: string, rest: seq<string>)
    ensures Entries(relative, front, [e] + rest) ==
            [Entry(true, relative, front, e)] + Entries(relative, PATH_SEPARATOR, rest)
  {
    assert ([e] + rest)[1..] == rest;
  }

  lemma DropLastCons(e: string, rest: seq<string>)
    requires |rest| > 0
    ensures DropLastEmpty([e] + rest) == [e] + DropLastEmpty(rest)
  {
    assert ([e] + rest)[..|rest|] == [e] + rest[..|rest| - 1];
  }

  lemma EntryFacts(relative: string, front: char, lead: string, e: string)
    requires SeparatorFree(e) && SeparatorFree(relative)
    requires lead == "" || (lead == [PATH_SEPARATOR] && front == PATH_SEPARATOR)
    ensures Entry(true, relative, front, lead + e) == lead + Entry(true, relative, front, e)
    ensures var entry := Entry(true, relative, front, e);
      SeparatorFree(entry) && (e != "" || front == PATH_SEPARATOR ==> entry != "")
  {
    assert e != "" ==> (lead + e)[|lead + e| - 1] == e[|e| - 1];
  }

  predicate StartsWithSeparator(s: string) { s != "" && s[0] == PATH_SEPARATOR }

  predicate StartsEmpty(entries: seq<string>) { entries != [] && entries[0] == "" }

  lemma NoneStart()
    ensures !StartsWithSeparator("") && !StartsEmpty([])
  {}

  lemma StartsJoined(a: string, b: string)
    ensures StartsWithSeparator(a + b) <==> if a == "" then StartsWithSeparator(b) else StartsWithSeparator(a)
    ensures b != "" ==> (a + b)[|a + b| - 1] == b[|b| - 1]
  {
    assert a == "" ==> a + b == b;
  }

  lemma StartsEmptyJoined(a: seq<string>, b: seq<string>)
    ensures StartsEmpty(a + b) <==> if a == [] then StartsEmpty(b) else StartsEmpty(a)
  {
    assert a == [] ==> a + b == b;
  }

  lemma {:induction false} NonEmptyJoined(a: seq<string>, b: seq<string>)
    ensures NonEmpty(a + b) == NonEmpty(a) + NonEmpty(b)
  {
    hide NonEmpty;
    NonEmptyNone();
    if a == [] {
      assert a + b == b;
    } else {
      assert a == [a[0]] + a[1..] && a + b == [a[0]] + (a[1..] + b);
      NonEmptyJoined(a[1..], b);
      NonEmptyCons(a[0], a[1..]);
      NonEmptyCons(a[0], a[1..] + b);
    }
  }

  /** The appended text ends in a separator, its non-empty entries are the completed entries of the list, and it starts
      with a separator exactly when the first completed entry is empty. */
  lemma {:induction false} CopiedVisits(relative: string, front: char, lead: string, entries: seq<string>)
    requires |entries| > 0 && (forall e | e in entries :: SeparatorFree(e)) && SeparatorFree(relative)
    requires lead == "" || (lead == [PATH_SEPARATOR] && front == PATH_SEPARATOR)
    ensures var out := Copied(true, relative, front, lead, entries);
      var completed := Entries(relative, front, DropLastEmpty(entries));
      && NonEmpty(Split(out)) == NonEmpty(completed)
      && (out == "" <==> completed == [])
      && (out == "" || out[|out| - 1] == PATH_SEPARATOR)
      && (lead == "" ==> (StartsWithSeparator(out) <==> StartsEmpty(completed)))
    decreases |entries|
  {
    hide Split, NonEmpty, Entry, SeparatorFree, StartsWithSeparator, StartsEmpty, DropLastEmpty;
    var e, rest := entries[0], entries[1..];
    assert entries == [e] + rest && e in entries;
    if rest == [] {
      assert entries == [e];
      CopiedLast(relative, front, lead, e);
    } else {
      assert forall x | x in rest :: x in entries;
      var entry := Entry(true, relative, front, e);
      var first := lead + entry + [PATH_SEPARATOR];
      var out := Copied(true, relative, PATH_SEPARATOR, [PATH_SEPARATOR], rest);
      FirstCopied(relative, front, lead, e);
      CopiedVisits(relative, PATH_SEPARATOR, [PATH_SEPARATOR], rest);
      NonEmptyConcat(first, out);
      StartsJoined(first, out);
      DropLastCons(e, rest);
      var more := Entries(relative, PATH_SEPARATOR, DropLastEmpty(rest));
      EntriesCons(relative, front, e, DropLastEmpty(rest));
      NonEmptyJoined([entry], more);
      StartsEmptyJoined([entry], more);
      assert Copied(true, relative, front, lead, entries) == first + out;
      assert out == "" ==> first + out == first;
    }
  }

  lemma FirstCopied(relative: string, front: char, lead: string, e: string)
    requires SeparatorFree(e) && SeparatorFree(relative)
    requires lead == "" || (lead == [PATH_SEPARATOR] && front == PATH_SEPARATOR)
    ensures var entry := Entry(true, relative, front, e);
      var first := lead + entry + [PATH_SEPARATOR];
      && Completed(true, relative, front, lead + e) == first
      && NonEmpty(Split(first)) == NonEmpty([entry])
      && first != "" && first[|first| - 1] == PATH_SEPARATOR
      && (lead == "" ==> (StartsWithSeparator(first) <==> StartsEmpty([entry])))
  {
    hide Split, NonEmpty, Entry, SeparatorFree;
    EntryFacts(relative, front, lead, e);
    VisitOne(lead, Entry(true, relative, front, e));
    NotSeparator(Entry(true, relative, front, e));
  }

  lemma CopiedLast(relative: string, front: char, lead: string, e: string)
    requires SeparatorFree(e) && SeparatorFree(relative)
    requires lead == "" || (lead == [PATH_SEPARATOR] && front == PATH_SEPARATOR)
    ensures var out := Copied(true, relative, front, lead, [e]);
      var completed := Entries(relative, front, DropLastEmpty([e]));
      && NonEmpty(Split(out)) == NonEmpty(completed)
      && (out == "" <==> completed == [])
      && (out == "" || out[|out| - 1] == PATH_SEPARATOR)
      && (lead == "" ==> (StartsWithSeparator(out) <==> StartsEmpty(completed)))
  {
    hide Split, NonEmpty, Entry, SeparatorFree, StartsWithSeparator, StartsEmpty;
    FirstCopied(relative, front, lead, e);
    NothingToSplit();
    NoneStart();
    EntriesCons(relative, front, e, []);
    var entry := Entry(true, relative, front, e);
    assert Entries(relative, front, []) == [] && [entry] + [] == [entry] && [e] + [] == [e];
    if e == "" {
      assert DropLastEmpty([e]) == [];
      assert Copied(true, relative, front, lead, [e]) == "";
    } else {
      assert DropLastEmpty([e]) == [e];
      assert Copied(true, relative, front, lead, [e]) == Completed(true, relative, front, lead + e);
    }
  }

  lemma NotSeparator(e: string)
    requires SeparatorFree(e)
    ensures e != "" ==> e[0] != PATH_SEPARATOR && e[|e| - 1] != PATH_SEPARATOR
  {}

  /** The directories of a list, as the code understands it: an empty entry counts except at the end,
      and a list of one character is lost. */
  function DirectoriesOf(cur: string): seq<string> {
    if |cur| == 1 && SeparatorFree(cur) then [] else DropLastEmpty(Split(cur))
  }

  /** What one list contributes to a search, for every list of directories. */
  lemma ListVisits(cur: string, relative: string, front: char)
    requires SeparatorFree(relative)
    ensures var out := CopiedList(true, relative, front, cur);
      var completed := Entries(relative, front, DirectoriesOf(cur));
      && NonEmpty(Split(out)) == NonEmpty(completed)
      && (out == "" <==> completed == [])
      && (out == "" || out[|out| - 1] == PATH_SEPARATOR)
      && (StartsWithSeparator(out) <==> StartsEmpty(completed))
  {
    hide NonEmpty, Split, Entry, SeparatorFree;
    JoinSplit(cur);
    NothingToSplit();
    if !(|cur| == 1 && SeparatorFree(cur)) {
      CopiedVisits(relative, front, "", Split(cur));
    }
  }

  datatype PathList = PathList(cur: string, relative: string, front: char)

  function CopiedAll(lists: seq<PathList>): string
    decreases |lists|
  {
    if lists == [] then ""
    else
      var l := lists[|lists| - 1];
      CopiedAll(lists[..|lists| - 1]) + CopiedList(true, l.relative, l.front, l.cur)
  }

  /** The completed directories of all lists in turn. */
  function EntriesOfAll(lists: seq<PathList>): seq<string>
    decreases |lists|
  {
    if lists == [] then []
    else
      var l := lists[|lists| - 1];
      EntriesOfAll(lists[..|lists| - 1]) + Entries(l.relative, l.front, DirectoriesOf(l.cur))
  }

  /** What is looked at: of empty paths only one at the very start. */
  function LookedAt(paths: seq<string>): seq<string> {
    (if StartsEmpty(paths) then [""] else []) + NonEmpty(paths)
  }

  lemma {:induction false} CopiedAllVisits(lists: seq<PathList>)
    requires forall l | l in lists :: SeparatorFree(l.relative)
    ensures var out, completed := CopiedAll(lists), EntriesOfAll(lists);
      && NonEmpty(Split(out)) == NonEmpty(completed)
      && (out == "" <==> completed == [])
      && (out == "" || out[|out| - 1] == PATH_SEPARATOR)
      && (StartsWithSeparator(out) <==> StartsEmpty(completed))
  {
    hide NonEmpty, Split, CopiedList, Entries, DirectoriesOf, SeparatorFree, StartsWithSeparator, StartsEmpty;
    NothingToSplit();
    NoneStart();
    if lists != [] {
      var front, l := lists[..|lists| - 1], lists[|lists| - 1];
      assert l in lists && forall x | x in front :: x in lists;
      CopiedAllVisits(front);
      ListVisits(l.cur, l.relative, l.front);
      NonEmptyConcat(CopiedAll(front), CopiedList(true, l.relative, l.front, l.cur));
      var a, b := CopiedAll(front), CopiedList(true, l.relative, l.front, l.cur);
      var c, d := EntriesOfAll(front), Entries(l.relative, l.front, DirectoriesOf(l.cur));
      NonEmptyJoined(c, d);
      StartsJoined(a, b);
      StartsEmptyJoined(c, d);
      assert b == "" ==> a + b == a;
    }
  }

  /** Any number of copied lists, searched: each list's directories in turn, completed, and nothing else. */
  lemma SearchVisits(lists: seq<PathList>)
    requires forall l | l in lists :: SeparatorFree(l.relative)
    ensures Visits(CopiedAll(lists)) == LookedAt(EntriesOfAll(lists))
  {
    hide NonEmpty, Split, CopiedAll, EntriesOfAll, SeparatorFree;
    CopiedAllVisits(lists);
  }

  lemma {:induction false} NonEmptyCount(entries: seq<string>)
    ensures |NonEmpty(entries)| <= |entries|
    ensures |NonEmpty(entries)| == |entries| <==> "" !in entries
    ensures "" !in entries ==> NonEmpty(entries) == entries
  {
    if entries != [] {
      var e, rest := entries[0], entries[1..];
      assert entries == [e] + rest;
      NonEmptyCount(rest);
    }
  }

  lemma {:induction false} NonEmptyDropLast(entries: seq<string>)
    requires |entries| > 0
    ensures NonEmpty(DropLastEmpty(entries)) == NonEmpty(entries)
  {
    hide NonEmpty;
    var e, rest := entries[0], entries[1..];
    assert entries == [e] + rest;
    NonEmptyCons(e, rest);
    NothingToSplit();
    if rest != [] {
      NonEmptyDropLast(rest);
      DropLastCons(e, rest);
      NonEmptyCons(e, DropLastEmpty(rest));
    }
  }

  predicate HasEmptyEntry(cur: string) {
    exists i | 0 <= i < |cur| - 1 :: cur[i] == PATH_SEPARATOR && cur[i + 1] == PATH_SEPARATOR
  }

  lemma {:induction false} EmptyEntryInside(cur: string)
    requires cur != "" && cur[0] != PATH_SEPARATOR
    ensures HasEmptyEntry(cur) <==> "" in DropLastEmpty(Split(cur))
    decreases |cur|
  {
    hide Split;
    var at := FindSeparator(cur, 0);
    SplitAt(cur, 0);
    assert cur[0..] == cur;
    if at != -1 {
      var e, rest := cur[..at], cur[at + 1..];
      DropLastCons(e, Split(rest));
      HasEmptyEntryAt(cur, at);
      SplitAt(rest, 0);
      assert rest[0..] == rest;
      if rest == "" {
        assert "" !in DropLastEmpty(Split(rest));
      } else if rest[0] == PATH_SEPARATOR {
        DropLastCons("", Split(rest[1..]));
      } else {
        EmptyEntryInside(rest);
      }
    }
  }

  lemma HasEmptyEntryAt(cur: string, at: nat)
    requires at == FindSeparator(cur, 0)
    ensures var rest := cur[at + 1..];
      HasEmptyEntry(cur) <==> (rest != "" && rest[0] == PATH_SEPARATOR) || HasEmptyEntry(rest)
  {
    var rest := cur[at + 1..];
    assert forall i | 0 <= i < |rest| :: rest[i] == cur[at + 1 + i];
    if i :| 0 <= i < |cur| - 1 && cur[i] == PATH_SEPARATOR && cur[i + 1] == PATH_SEPARATOR {
      if i > at {
        assert rest[i - at - 1] == PATH_SEPARATOR && rest[i - at] == PATH_SEPARATOR;
      }
    }
    if i :| 0 <= i < |rest| - 1 && rest[i] == PATH_SEPARATOR && rest[i + 1] == PATH_SEPARATOR {
      assert cur[at + 1 + i] == PATH_SEPARATOR && cur[at + 1 + i + 1] == PATH_SEPARATOR;
    }
    if rest != "" && rest[0] == PATH_SEPARATOR {
      assert cur[at + 1] == PATH_SEPARATOR;
    }
  }

  lemma {:induction false} CompletedAfterSeparator(relative: string, entries: seq<string>)
    ensures "" !in Entries(relative, PATH_SEPARATOR, entries)
    decreases |entries|
  {
    if entries != [] {
      CompletedAfterSeparator(relative, entries[1..]);
    }
  }

  /** Of one list every completed entry is looked at: only the first can be empty. */
  lemma AllLookedAt(relative: string, front: char, entries: seq<string>)
    ensures LookedAt(Entries(relative, front, entries)) == Entries(relative, front, entries)
  {
    hide NonEmpty, Entry;
    NonEmptyNone();
    if entries != [] {
      var e, rest := entries[0], entries[1..];
      assert entries == [e] + rest;
      EntriesCons(relative, front, e, rest);
      var more := Entries(relative, PATH_SEPARATOR, rest);
      CompletedAfterSeparator(relative, rest);
      NonEmptyCount(more);
      NonEmptyCons(Entry(true, relative, front, e), more);
    }
  }

  lemma EmptyEntryIff(cur: string)
    requires !(|cur| == 1 && SeparatorFree(cur))
    ensures "" in DropLastEmpty(Split(cur)) <==> !NoLeadingSeparator(cur) || HasEmptyEntry(cur)
  {
    hide Split;
    if cur == "" {
      NothingToSplit();
    } else if cur[0] == PATH_SEPARATOR {
      SplitFirst("", cur[1..]);
      assert cur == "" + [PATH_SEPARATOR] + cur[1..];
      DropLastCons("", Split(cur[1..]));
    } else {
      EmptyEntryInside(cur);
    }
  }

  /** Exactly when a search looks at each non-empty entry of a list of directories and nothing else: the list is not
      of one character, and has no empty entry at its start or in its middle. */
  lemma VisitsEntriesIff(cur: string, relative: string, front: char)
    requires SeparatorFree(relative)
    ensures Visits(CopiedList(true, relative, front, cur)) == Entries(relative, front, NonEmpty(Split(cur))) <==>
            |cur| != 1 && NoLeadingSeparator(cur) && !HasEmptyEntry(cur)
  {
    var directories := DirectoriesOf(cur);
    ListVisits(cur, relative, front);
    AllLookedAt(relative, front, directories);
    NonEmptyDropLast(Split(cur));
    NonEmptyCount(directories);
    assert Visits(CopiedList(true, relative, front, cur)) == Entries(relative, front, directories) by {
      hide Split, NonEmpty, Entries, CopiedList, DirectoriesOf;
    }
    hide Split, Entries, Entry, CopiedList, NonEmpty, Visits;
    if |cur| == 1 && SeparatorFree(cur) {
      SplitFirst(cur, "");
      NonEmptyCount([cur]);
    } else {
      EmptyEntryIff(cur);
      assert |cur| == 1 ==> !NoLeadingSeparator(cur);
    }
  }

  lemma SplitExample()
    ensures Split("a::b") == ["a"] + ([""] + ["b"])
    ensures Split(":a") == [""] + ["a"]
  {
    hide Split, FindSeparator;
    var rest := [PATH_SEPARATOR, 'b'];
    SplitFirst("a", rest);
    SplitFirst("", "b");
    SplitFirst("b", "");
    assert "" + [PATH_SEPARATOR] + "b" == rest;
    assert "a" + [PATH_SEPARATOR] + rest == "a::b";
    SplitFirst("", "a");
    SplitFirst("a", "");
    assert "" + [PATH_SEPARATOR] + "a" == ":a";
  }

  lemma MiddleExample(front: char)
    ensures Entries("openxr", front, ["a"] + ([""] + ["b"])) == ["a/openxr"] + (["/openxr"] + ["b/openxr"])
  {
    hide Entries, Entry;
    EntriesCons("openxr", front, "a", [""] + ["b"]);
    EntriesCons("openxr", PATH_SEPARATOR, "", ["b"]);
    OneEntry("b", PATH_SEPARATOR);
    EntryOf("a", front);
    EntryOf("", PATH_SEPARATOR);
    EntryOf("b", PATH_SEPARATOR);
  }

  lemma StartExample(front: char)
    ensures Entries("openxr", front, [""] + ["a"]) == [if IsSlash(front) then "openxr" else "/openxr"] + ["a/openxr"]
  {
    hide Entries, Entry;
    EntriesCons("openxr", front, "", ["a"]);
    OneEntry("a", PATH_SEPARATOR);
    EntryOf("", front);
    EntryOf("a", PATH_SEPARATOR);
  }

  lemma OneEntry(e: string, front: char)
    ensures Entries("openxr", front, [e]) == [Entry(true, "openxr", front, e)]
  {}

  lemma EntryOf(e: string, front: char)
    requires e == "" || e == "a" || e == "b"
    ensures Entry(true, "openxr", front, e) ==
      if e == "a" then "a/openxr" else if e == "b" then "b/openxr"
      else if IsSlash(front) then "openxr" else "/openxr"
  {
    assert "a" + "/" + "openxr" == "a/openxr" && "b" + "/" + "openxr" == "b/openxr";
    assert "" + "/" + "openxr" == "/openxr" && "" + "" + "openxr" == "openxr";
  }

  /** Three lists that go wrong: the root directory, lost; an empty entry, taken for the root directory; and a list
      that starts with a separator, where it depends on the memory in front of it what is looked at. */
  lemma LostAndInventedDirectories(front: char)
    ensures Visits(CopiedList(true, "openxr", front, "/")) == []
    ensures Visits(CopiedList(true, "openxr", front, "a::b")) == ["a/openxr", "/openxr", "b/openxr"]
    ensures !NoLeadingSeparator(":a") && NoLeadingSeparator("a::b") && NoLeadingSeparator("")
    ensures Visits(CopiedList(true, "openxr", front, ":a")) ==
            [if IsSlash(front) then "openxr" else "/openxr", "a/openxr"]
  {
    OneListVisits("/", front);
    OneListVisits("a::b", front);
    OneListVisits(":a", front);
    SplitExample();
    MiddleExample(front);
    StartExample(front);
    assert DropLastEmpty(["a"] + ([""] + ["b"])) == ["a"] + ([""] + ["b"]);
    assert DropLastEmpty([""] + ["a"]) == [""] + ["a"];
    hide Split, NonEmpty, Entry, CopiedList, Visits;
    assert ":a"[0] == PATH_SEPARATOR;
  }

  lemma OneListVisits(cur: string, front: char)
    ensures Visits(CopiedList(true, "openxr", front, cur)) == Entries("openxr", front, DirectoriesOf(cur))
  {
    ListVisits(cur, "openxr", front);
    AllLookedAt("openxr", front, DirectoriesOf(cur));
    hide Split, NonEmpty, Entries, CopiedList, DirectoriesOf;
  }

  const HOME_ADDITIONAL := ".local/share/"

  /** The places ReadDataFilesInSearchPaths takes its lists from on Linux: constants of the build and the environment.
      The override is empty where its variable is unset or not permitted. */
  datatype Places = Places(
    overridePath: string,
    fallbackConfig: string,
    sysConf: string,
    extraSysConf: Option<string>,
    fallbackData: string,
    xdgConfDirs: string,
    xdgDataDirs: string,
    xdgDataHome: string,
    home: string)

  /** The lists it copies, in their order of precedence; `fronts` stand in memory in front of them. */
  function DataFileLists(p: Places, relative: string, fronts: nat -> char): seq<PathList> {
    if p.overridePath != "" then [PathList(p.overridePath, "", fronts(0))]
    else SystemLists(p, relative, fronts) + HomeLists(p, relative, fronts)
  }

  function SystemLists(p: Places, relative: string, fronts: nat -> char): seq<PathList> {
    [PathList(if p.xdgConfDirs == "" then p.fallbackConfig else p.xdgConfDirs, relative, fronts(0))]
    + [PathList(p.sysConf, relative, fronts(1))]
    + (if p.extraSysConf.Some? then [PathList(p.extraSysConf.value, relative, fronts(2))] else [])
    + [PathList(if p.xdgDataDirs == "" then p.fallbackData else p.xdgDataDirs, relative, fronts(3))]
  }

  function HomeLists(p: Places, relative: string, fronts: nat -> char): seq<PathList> {
    if p.xdgDataHome != "" then [PathList(p.xdgDataHome, relative, fronts(4))]
    else if p.home != "" then [PathList(p.home, HOME_ADDITIONAL + relative, fronts(4))]
    else []
  }

  ghost predicate NoneLeading(lists: seq<PathList>) { forall l | l in lists :: NoLeadingSeparator(l.cur) }

  /** What has been copied: the lists `done`, and whether every read was within its list. */
  ghost predicate CopiedSoFar(done: seq<PathList>, out: string, inRange: bool) {
    && out == CopiedAll(done) && (inRange <==> NoneLeading(done))
    && forall l | l in done :: SeparatorFree(l.relative)
  }

  /** CopyIncludedPaths for directories, with the lists copied so far. */
  method CopyOneMore(cur: string, relative: string, front: char, outputPath: string, inRange: bool,
      ghost done: seq<PathList>)
    returns (r: string, ok: bool, ghost copied: seq<PathList>)
    requires SeparatorFree(relative) && CopiedSoFar(done, outputPath, inRange)
    ensures copied == done + [PathList(cur, relative, front)] && CopiedSoFar(copied, r, ok)
  {
    hide CopiedList, NoLeadingSeparator, SeparatorFree;
    r, ok := CopyIncludedPaths(true, cur, relative, front, outputPath);
    ok := inRange && ok;
    copied := done + [PathList(cur, relative, front)];
    assert copied[..|copied| - 1] == done;
    assert copied[|done|] == PathList(cur, relative, front);
    assert forall l | l in done :: l in copied;
  }

  method CopySystemLists(p: Places, relative: string, fronts: nat -> char)
    returns (r: string, ok: bool, ghost copied: seq<PathList>)
    requires SeparatorFree(relative)
    ensures copied == SystemLists(p, relative, fronts) && CopiedSoFar(copied, r, ok)
  {
    hide CopiedSoFar, SeparatorFree;
    NothingCopied();
    var config := if p.xdgConfDirs == "" then p.fallbackConfig else p.xdgConfDirs;
    var data := if p.xdgDataDirs == "" then p.fallbackData else p.xdgDataDirs;
    r, ok, copied := CopyOneMore(config, relative, fronts(0), "", true, []);
    r, ok, copied := CopyOneMore(p.sysConf, relative, fronts(1), r, ok, copied);
    if p.extraSysConf.Some? {
      r, ok, copied := CopyOneMore(p.extraSysConf.value, relative, fronts(2), r, ok, copied);
    }
    r, ok, copied := CopyOneMore(data, relative, fronts(3), r, ok, copied);
  }

  /** ReadDataFilesInSearchPaths. */
  method ReadDataFilesInSearchPaths(p: Places, relative: string, fronts: nat -> char)
    returns (overrideActive: bool, visited: seq<string>, inRange: bool)
    requires SeparatorFree(relative)
    ensures overrideActive <==> p.overridePath != ""
    ensures visited == LookedAt(EntriesOfAll(DataFileLists(p, relative, fronts)))
    ensures inRange <==> NoneLeading(DataFileLists(p, relative, fronts))
  {
    assert SeparatorFree("") && SeparatorFree(HOME_ADDITIONAL + relative);
    hide SeparatorFree, CopiedSoFar, EntriesOfAll, LookedAt, NoneLeading, SystemLists, Visits, CopiedAll;
    var searchPath;
    ghost var done;
    if p.overridePath != "" {
      NothingCopied();
      searchPath, inRange, done := CopyOneMore(p.overridePath, "", fronts(0), "", true, []);
      overrideActive := true;
    } else {
      overrideActive := false;
      searchPath, inRange, done := CopySystemLists(p, relative, fronts);
      if p.xdgDataHome != "" {
        searchPath, inRange, done := CopyOneMore(p.xdgDataHome, relative, fronts(4), searchPath, inRange, done);
      } else if p.home != "" {
        searchPath, inRange, done :=
          CopyOneMore(p.home, HOME_ADDITIONAL + relative, fronts(4), searchPath, inRange, done);
      }
    }
    assert done == DataFileLists(p, relative, fronts);
    CopiedIsSearched(done, searchPath, inRange);
    visited := AddFilesInPath(searchPath);
  }

  lemma CopiedIsSearched(done: seq<PathList>, out: string, inRange: bool)
    requires CopiedSoFar(done, out, inRange)
    ensures Visits(out) == LookedAt(EntriesOfAll(done)) && (inRange <==> NoneLeading(done))
  {
    SearchVisits(done);
  }

  lemma NothingCopied()
    ensures CopiedSoFar([], "", true)
  {}

  /** A list of one directory, written without a symbol at its end. */
  predicate OneDirectory(cur: string) {
    |cur| > 1 && ':' !in cur && cur[|cur| - 1] != '/' && cur[|cur| - 1] != '\\'
  }

  lemma OneDirectoryEntry(l: PathList)
    requires OneDirectory(l.cur)
    ensures Entries(l.relative, l.front, DirectoriesOf(l.cur)) == [l.cur + "/" + l.relative]
  {
    SplitFirst(l.cur, "");
    assert DropLastEmpty([l.cur]) == [l.cur] == DirectoriesOf(l.cur);
    assert Entry(true, l.relative, l.front, l.cur) == l.cur + "/" + l.relative;
  }

  lemma OneMoreDirectory(lists: seq<PathList>, cur: string, relative: string, front: char)
    requires OneDirectory(cur)
    ensures EntriesOfAll(lists + [PathList(cur, relative, front)]) == EntriesOfAll(lists) + [cur + "/" + relative]
  {
    hide Entries, DirectoriesOf, OneDirectory;
    var l := PathList(cur, relative, front);
    assert (lists + [l])[..|lists|] == lists;
    OneDirectoryEntry(l);
  }

  lemma NoDirectories()
    ensures EntriesOfAll([]) == []
  {}

  ghost predicate SingleDirectories(p: Places, config: string, data: string) {
    && config == (if p.xdgConfDirs == "" then p.fallbackConfig else p.xdgConfDirs)
    && data == (if p.xdgDataDirs == "" then p.fallbackData else p.xdgDataDirs)
    && OneDirectory(config) && OneDirectory(p.sysConf) && OneDirectory(data)
    && (p.overridePath != "" ==> OneDirectory(p.overridePath))
    && (p.extraSysConf.Some? ==> OneDirectory(p.extraSysConf.value))
    && (p.xdgDataHome != "" ==> OneDirectory(p.xdgDataHome)) && (p.home != "" ==> OneDirectory(p.home))
  }

  lemma SystemOrder(p: Places, relative: string, fronts: nat -> char, config: string, data: string)
    requires SingleDirectories(p, config, data)
    ensures EntriesOfAll(SystemLists(p, relative, fronts)) ==
      [config + "/" + relative] + [p.sysConf + "/" + relative] +
      (if p.extraSysConf.Some? then [p.extraSysConf.value + "/" + relative] else []) + [data + "/" + relative]
  {
    hide EntriesOfAll, OneDirectory;
    NoDirectories();
    var lists := [PathList(config, relative, fronts(0))] + [PathList(p.sysConf, relative, fronts(1))];
    assert [] + [PathList(config, relative, fronts(0))] == [PathList(config, relative, fronts(0))];
    OneMoreDirectory([], config, relative, fronts(0));
    OneMoreDirectory([PathList(config, relative, fronts(0))], p.sysConf, relative, fronts(1));
    if p.extraSysConf.Some? {
      OneMoreDirectory(lists, p.extraSysConf.value, relative, fronts(2));
      OneMoreDirectory(lists + [PathList(p.extraSysConf.value, relative, fronts(2))], data, relative, fronts(3));
    } else {
      assert lists + [] == lists;
      OneMoreDirectory(lists, data, relative, fronts(3));
    }
  }

  /** The order of the search where each place is one directory: configuration, data and then the home directory.
      An override takes the place of them all, and of the relative path. */
  lemma SearchOrder(p: Places, relative: string, fronts: nat -> char, config: string, data: string)
    requires SingleDirectories(p, config, data)
    ensures EntriesOfAll(DataFileLists(p, relative, fronts)) ==
      if p.overridePath != "" then [p.overridePath + "/"]
      else
        [config + "/" + relative] + [p.sysConf + "/" + relative] +
        (if p.extraSysConf.Some? then [p.extraSysConf.value + "/" + relative] else []) + [data + "/" + relative] +
        if p.xdgDataHome != "" then [p.xdgDataHome + "/" + relative]
        else if p.home != "" then [p.home + "/" + (".local/share/" + relative)] else []
  {
    hide EntriesOfAll, OneDirectory, SystemLists;
    var system := SystemLists(p, relative, fronts);
    SystemOrder(p, relative, fronts, config, data);
    if p.overridePath != "" {
      NoDirectories();
      OneMoreDirectory([], p.overridePath, "", fronts(0));
      assert [] + [PathList(p.overridePath, "", fronts(0))] == [PathList(p.overridePath, "", fronts(0))];
      assert p.overridePath + "/" + "" == p.overridePath + "/";
    } else if p.xdgDataHome != "" {
      OneMoreDirectory(system, p.xdgDataHome, relative, fronts(4));
    } else if p.home != "" {
      OneMoreDirectory(system, p.home, ".local/share/" + relative, fronts(4));
    } else {
      assert system + [] == system;
    }
  }

  lemma {:induction false} NoneEmpty(entries: seq<string>)
    requires forall e | e in entries :: e != ""
    ensures NonEmpty(entries) == entries
  {
    if entries != [] {
      assert entries[0] in entries && forall e | e in entries[1..] :: e in entries;
      NoneEmpty(entries[1..]);
      assert entries == [entries[0]] + entries[1..];
    }
  }

  lemma VisitsJoined(entries: seq<string>)
    requires entries != [] && (forall e | e in entries :: ':' !in e)
    ensures Visits(Join(entries)) == (if |entries| > 1 && entries[0] == "" then [""] else []) + NonEmpty(entries)
  {
    hide Split, NonEmpty;
    assert forall e | e in entries :: SeparatorFree(e);
    SplitJoin(entries);
    assert entries[0] in entries;
  }

  /** Splitting visits every entry in order; empty ones in between make no visit, and one at the start makes one. */
  lemma EntriesVisited(a: seq<string>, b: seq<string>)
    requires a != [] && b != [] && (forall e | e in a + b :: ':' !in e)
    ensures (forall e | e in a :: e != "") ==> Visits(Join(a)) == a && Visits(":" + Join(a)) == [""] + a
    ensures a[0] != "" ==> Visits(Join(a + ([""] + b))) == Visits(Join(a + b))
  {
    hide Split, NonEmpty, Visits, Join;
    assert forall e | e in a :: e in a + b;
    VisitsJoined(a);
    if forall e | e in a :: e != "" {
      NoneEmpty(a);
      assert a[0] in a && [] + a == a;
      VisitsJoined([""] + a);
      JoinCons("", a);
      assert "" + [PATH_SEPARATOR] + Join(a) == ":" + Join(a);
      NonEmptyCons("", a);
    }
    if a[0] != "" {
      VisitsJoined(a + ([""] + b));
      VisitsJoined(a + b);
      NonEmptyJoined(a, [""] + b);
      NonEmptyJoined(a, b);
      NonEmptyCons("", b);
      assert [] + NonEmpty(b) == NonEmpty(b);
    }
  }

  // ---------- The enabled-layers variable ----------

  /** The names taken so far, and those from index `i` on, are all of them. */
  ghost predicate Taken(layers: string, enabled: seq<string>, r: seq<string>, i: nat) {
    i <= |layers| && r + DropLastEmpty(Split(layers[i..])) == enabled + DropLastEmpty(Split(layers))
  }

  lemma TakenNone(layers: string, enabled: seq<string>)
    ensures Taken(layers, enabled, enabled, 0)
  {
    assert layers[0..] == layers;
  }

  lemma TakenNext(layers: string, enabled: seq<string>, r: seq<string>, i: nat)
    requires Taken(layers, enabled, r, i)
    ensures var found := FindSeparator(layers, i);
      if found != -1 then Taken(layers, enabled, r + [layers[i..found]], found + 1)
      else enabled + DropLastEmpty(Split(layers)) == if i < |layers| then r + [layers[i..]] else r
  {
    hide Split, DropLastEmpty, FindSeparator;
    SplitAt(layers, i);
    var found := FindSeparator(layers, i);
    if found != -1 {
      DropLastCons(layers[i..found], Split(layers[found + 1..]));
      Regrouped(r, [layers[i..found]], DropLastEmpty(Split(layers[found + 1..])));
    } else {
      DropLastOne(layers[i..]);
      if i == |layers| {
        assert r + [] == r;
      }
    }
  }

  /** AddEnvironmentApiLayers: every entry, empty ones too, except an empty one at the very end. */
  method AddEnvironmentApiLayers(layers: string, enabled: seq<string>) returns (r: seq<string>)
    ensures r == enabled + DropLastEmpty(Split(layers))
  {
    hide Split, DropLastEmpty, Taken;
    r := enabled;
    var lastFound := 0;
    var found := FindSeparator(layers, 0);
    TakenNone(layers, enabled);
    while found != -1
      invariant 0 <= lastFound <= |layers| && found == FindSeparator(layers, lastFound)
      invariant Taken(layers, enabled, r, lastFound)
      decreases |layers| - lastFound
    {
      TakenNext(layers, enabled, r, lastFound);
      r := r + [layers[lastFound..found]];
      lastFound := found + 1;
      found := FindSeparator(layers, lastFound);
    }
    TakenNext(layers, enabled, r, lastFound);
    if lastFound < |layers| {
      r := r + [layers[lastFound..]];
    }
  }

  lemma DropLastOne(e: string)
    ensures DropLastEmpty([e]) == if e == "" then [] else [e]
  {}

  /** The text lists the names: joined by separators, with or without one more separator at the end. */
  ghost predicate Lists(text: string, names: seq<string>) {
    && (forall name | name in names :: ':' !in name)
    && (text == Join(names + [""]) || (names != [] && names[|names| - 1] != "" && text == Join(names)))
  }

  /** What a text lists is what is taken from it, and every text lists something. */
  lemma ListedNames(text: string, names: seq<string>)
    ensures Lists(text, names) <==> DropLastEmpty(Split(text)) == names
  {
    hide Split, Join;
    if Lists(text, names) {
      assert forall name | name in names + [""] :: SeparatorFree(name);
      if text == Join(names + [""]) {
        SplitJoin(names + [""]);
      } else {
        SplitJoin(names);
      }
    }
    if DropLastEmpty(Split(text)) == names {
      JoinSplit(text);
      var entries := Split(text);
      assert forall name | name in names :: name in entries && SeparatorFree(name);
      var last := entries[|entries| - 1];
      assert last in entries;
      if last == "" {
        assert entries == names + [""];
      }
    }
  }
}
