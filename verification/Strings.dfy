/** String search, case folding and the two delimiter splitters of the IDD setup tool. */
module Strings {
  import opened Options

  predicate OccursAt(s: string, d: string, i: nat) {
    i + |d| <= |s| && s[i..i + |d|] == d
  }

  /** `basic_string::find` and `std::search`: the first occurrence at or after `from`. */
  function Find(s: string, d: string, from: nat): (r: Option<nat>)
    requires from <= |s|
    ensures r.Some? ==> from <= r.value && r.value + |d| <= |s|
    decreases |s| - from
  {
    if OccursAt(s, d, from) then Some(from)
    else if from < |s| then Find(s, d, from + 1)
    else None
  }

  /** `i` is the leftmost occurrence at or after `from`. */
  predicate FirstAt(s: string, d: string, from: nat, i: nat) {
    from <= i && OccursAt(s, d, i) && forall j :: from <= j < i ==> !OccursAt(s, d, j)
  }

  /** The search finds exactly the leftmost occurrence, and fails exactly when there is none. */
  lemma {:induction false} FindIsFirst(s: string, d: string, from: nat)
    requires from <= |s|
    ensures forall i: nat :: Find(s, d, from) == Some(i) <==> FirstAt(s, d, from, i)
    ensures Find(s, d, from).None? <==> forall j :: from <= j ==> !OccursAt(s, d, j)
    decreases |s| - from
  {
    if !OccursAt(s, d, from) && from < |s| {
      FindIsFirst(s, d, from + 1);
    }
  }

  /** ASCII case folding, what `std::tolower` does in the C locale. */
  function LowerChar(c: char): (r: char)
    ensures !('A' <= r <= 'Z')
    ensures !('A' <= c <= 'Z') ==> r == c
  {
    if 'A' <= c <= 'Z' then c - 'A' + 'a' else c
  }

  /** A capital becomes the letter 32 above it, so different capitals stay different. */
  lemma CapitalsFold(a: char, b: char)
    requires 'A' <= a <= 'Z' && 'A' <= b <= 'Z'
    ensures LowerChar(a) as int == a as int + 32 && 'a' <= LowerChar(a) <= 'z'
    ensures LowerChar(a) == LowerChar(b) <==> a == b
  {
  }

  function LowerCase(s: string): (r: string)
    ensures |r| == |s|
    ensures forall i :: 0 <= i < |s| ==> r[i] == LowerChar(s[i])
  {
    seq(|s|, i requires 0 <= i < |s| => LowerChar(s[i]))
  }

  predicate Contains(s: string, d: string) {
    exists i :: 0 <= i <= |s| && OccursAt(s, d, i)
  }

  predicate ContainsIgnoringCase(target: string, pattern: string) {
    Contains(LowerCase(target), LowerCase(pattern))
  }

  method CheckIfStringContainsPattern(target: string, pattern: string, ignoreCase: bool) returns (found: bool)
    ensures found <==> if ignoreCase then ContainsIgnoringCase(target, pattern) else Contains(target, pattern)
  {
    var t, p := target, pattern;
    if ignoreCase {
      t, p := LowerCase(t), LowerCase(p);
    }
    FindIsFirst(t, p, 0);
    found := Find(t, p, 0).Some?;
  }

  /** What both splitters compute: cut at each leftmost delimiter; nothing is kept after a final one. */
  function Split(s: string, d: string): (r: seq<string>)
    requires d != ""
    ensures r == [] <==> s == ""
    decreases |s|
  {
    match Find(s, d, 0)
    case Some(i) => [s[..i]] + Split(s[i + |d|..], d)
    case None => if s == "" then [] else [s]
  }

  function Join(pieces: seq<string>, d: string): string {
    if pieces == [] then ""
    else if |pieces| == 1 then pieces[0]
    else pieces[0] + d + Join(pieces[1..], d)
  }

  lemma {:induction false} OccursInSuffix(s: string, d: string, from: nat, j: nat)
    requires from <= |s|
    ensures OccursAt(s[from..], d, j) <==> OccursAt(s, d, from + j)
  {
  }

  lemma {:induction false} FindInSuffix(s: string, d: string, base: nat, from: nat)
    requires base <= from <= |s|
    ensures Find(s, d, from) == match Find(s[base..], d, from - base) case None => None case Some(i) => Some(base + i)
    decreases |s| - from
  {
    OccursInSuffix(s, d, base, from - base);
    if !OccursAt(s, d, from) && from < |s| {
      FindInSuffix(s, d, base, from + 1);
    }
  }

  /** One round of either splitter. */
  lemma {:induction false} SplitSuffix(s: string, d: string, from: nat)
    requires d != "" && from <= |s|
    ensures match Find(s, d, from)
            case Some(n) => Split(s[from..], d) == [s[from..n]] + Split(s[n + |d|..], d)
            case None => Split(s[from..], d) == if from == |s| then [] else [s[from..]]
  {
    FindInSuffix(s, d, from, from);
    match Find(s, d, from)
    case Some(n) =>
      SuffixSlices(s, from, n, |d|);
      SplitAt(s[from..], d, n - from, s[from..n], s[n + |d|..]);
    case None =>
  }

  lemma SplitAt(u: string, d: string, i: nat, head: string, tail: string)
    requires d != "" && Find(u, d, 0) == Some(i) && head == u[..i] && tail == u[i + |d|..]
    ensures Split(u, d) == [head] + Split(tail, d)
  {
  }

  lemma SuffixSlices(s: string, from: nat, n: nat, m: nat)
    requires from <= n <= n + m <= |s|
    ensures s[from..][..n - from] == s[from..n] && s[from..][n - from + m..] == s[n + m..]
  {
  }

  /** Without a delimiter the whole string is one piece. */
  function Pieces(s: string, d: string): (r: seq<string>)
    ensures r == [] <==> s == ""
  {
    if d != "" then Split(s, d) else if s == "" then [] else [s]
  }

  /** The pieces SplitStringOnDelimiter still has to find. */
  function Rest(s: string, d: string, from: nat): seq<string>
    requires from <= |s|
  {
    Pieces(s[from..], d)
  }

  /** One round of SplitStringOnDelimiter. */
  lemma PiecesRound(done: seq<string>, s: string, d: string, from: nat)
    requires d != "" && from <= |s| && Find(s, d, from).Some?
    ensures var n := Find(s, d, from).value;
            done + Rest(s, d, from) == (done + [s[from..n]]) + Rest(s, d, n + |d|)
  {
    SplitSuffix(s, d, from);
    var n := Find(s, d, from).value;
    Regroup(done, s[from..n], Split(s[n + |d|..], d));
  }

  /** What is left for the end. */
  lemma PiecesEnd(s: string, d: string, from: nat)
    requires from <= |s| && (d != "" || s == "") && (Find(s, d, from).Some? ==> Find(s, d, from).value == |s|)
    ensures Rest(s, d, from) == if from == |s| then [] else [s[from..]]
  {
    if d != "" {
      SplitSuffix(s, d, from);
    }
  }

  /**
   * SplitStringOnDelimiter: two moving positions over one unchanged string. With an empty delimiter the source
   * returns only for empty content.
   */
  method SplitStringOnDelimiter(content: string, delimiter: string) returns (result: seq<string>)
    requires delimiter != "" || content == ""
    ensures result == Pieces(content, delimiter)
  {
    result := [];
    var previous := 0;
    var next := Find(content, delimiter, previous);
    ghost var all := Rest(content, delimiter, 0);
    while next.Some? && next.value != |content|
      invariant previous <= |content|
      invariant next == Find(content, delimiter, previous)
      invariant result + Rest(content, delimiter, previous) == all
      decreases |content| - previous
    {
      PiecesRound(result, content, delimiter, previous);
      result := result + [content[previous..next.value]];
      previous := next.value + |delimiter|;
      next := Find(content, delimiter, previous);
    }
    PiecesEnd(content, delimiter, previous);
    if previous != |content| {
      result := result + [content[previous..]];
    }
    assert content[0..] == content;
  }

  lemma Regroup<X>(a: seq<X>, x: X, b: seq<X>)
    ensures a + ([x] + b) == (a + [x]) + b
  {
  }

  function LowerAll(pieces: seq<string>, ignoreCase: bool): (r: seq<string>)
    ensures |r| == |pieces|
    ensures forall i :: 0 <= i < |pieces| ==> r[i] == if ignoreCase then LowerCase(pieces[i]) else pieces[i]
  {
    seq(|pieces|, i requires 0 <= i < |pieces| => if ignoreCase then LowerCase(pieces[i]) else pieces[i])
  }

  lemma {:induction false} PiecesStep(s: string, d: string)
    requires s != ""
    ensures Find(s, d, 0).Some? && d != "" ==>
              var n := Find(s, d, 0).value; Pieces(s, d) == [s[..n]] + Pieces(s[n + |d|..], d)
    ensures !(Find(s, d, 0).Some? && d != "") ==> Pieces(s, d) == [s] + Pieces("", d)
  {
  }

  /** The values of the pieces up to the first that does not convert. */
  function Convertible<V>(convert: string -> Option<V>, pieces: seq<string>): (r: seq<V>)
    ensures |r| <= |pieces|
    ensures forall i :: 0 <= i < |r| ==> convert(pieces[i]) == Some(r[i])
    ensures |r| < |pieces| ==> convert(pieces[|r|]).None?
    decreases |pieces|
  {
    if pieces == [] || convert(pieces[0]).None? then []
    else [convert(pieces[0]).value] + Convertible(convert, pieces[1..])
  }

  datatype Extraction = Accepted | Refused | Unreadable

  function Fold(s: string, ignoreCase: bool): string {
    if ignoreCase then LowerCase(s) else s
  }

  /** What the rest of an argument string still stores. */
  function Stored<V>(convert: string -> Option<V>, rest: string, d: string, ignoreCase: bool): (r: seq<V>)
    ensures |r| <= |Pieces(rest, d)|
  {
    Convertible(convert, LowerAll(Pieces(rest, d), ignoreCase))
  }

  /** One round: the piece cut off is stored, or ends it all. */
  lemma StoredCons<V>(convert: string -> Option<V>, s: string, p: string, rest: string, d: string, ignoreCase: bool)
    requires Pieces(s, d) == [p] + Pieces(rest, d)
    ensures var v := convert(Fold(p, ignoreCase));
            Stored(convert, s, d, ignoreCase) ==
              if v.None? then [] else [v.value] + Stored(convert, rest, d, ignoreCase)
  {
    var all, others := LowerAll(Pieces(s, d), ignoreCase), LowerAll(Pieces(rest, d), ignoreCase);
    assert Pieces(s, d)[0] == p && Pieces(s, d)[1..] == Pieces(rest, d);
    assert all[0] == Fold(p, ignoreCase) && all[1..] == others;
  }

  /** The piece up to the first delimiter, and what follows it. */
  function Cut(s: string, d: string): (r: (string, string))
    requires s != ""
    ensures Pieces(s, d) == [r.0] + Pieces(r.1, d) && |r.1| < |s|
  {
    PiecesStep(s, d);
    match Find(s, d, 0)
    case Some(n) => if d != "" then (s[..n], s[n + |d|..]) else (s, "")
    case None => (s, "")
  }

  /** One round of the loop below, on what was stored before. */
  lemma StoredRound<V>(convert: string -> Option<V>, s: string, d: string, ignoreCase: bool, done: seq<V>)
    requires s != ""
    ensures var (p, rest) := Cut(s, d);
            var v := convert(Fold(p, ignoreCase));
            && |Pieces(s, d)| == 1 + |Pieces(rest, d)|
            && done + Stored(convert, s, d, ignoreCase) ==
                 if v.None? then done else (done + [v.value]) + Stored(convert, rest, d, ignoreCase)
  {
    var (p, rest) := Cut(s, d);
    StoredCons(convert, s, p, rest, d, ignoreCase);
    var v := convert(Fold(p, ignoreCase));
    if v.Some? {
      Regroup(done, v.value, Stored(convert, rest, d, ignoreCase));
    }
  }

  /** The head of the loop below. */
  method CutSegment(s: string, d: string) returns (segment: string, rest: string)
    requires s != ""
    ensures (segment, rest) == Cut(s, d)
  {
    var next := Find(s, d, 0);
    if next.Some? && |d| > 0 {
      segment := s[..next.value];
      rest := s[next.value + |d|..];
    } else {
      segment := s;
      rest := "";
    }
  }

  /**
   * ExtractAndStoreParamInfo: the argument string is shortened piece by piece and each piece is converted, which
   * throws for a number that does not parse. Vector targets are appended to `before`; for an array target
   * `before` is empty and the result is the cells written. An empty delimiter keeps the string as one piece.
   */
  method ExtractAndStoreParamInfo<V>(arguments: string, delimiter: string, ignoreCase: bool, argumentCount: int,
                                     convert: string -> Option<V>, before: seq<V>)
    returns (outcome: Extraction, target: seq<V>)
    ensures var pieces := LowerAll(Pieces(arguments, delimiter), ignoreCase);
            && target == before + Convertible(convert, pieces)
            && outcome == if |target| < |before| + |pieces| then Unreadable
                          else if (if argumentCount == 0 then |pieces| > 0 else |pieces| == argumentCount) then Accepted
                          else Refused
  {
    var rest, count := arguments, 0;
    target := before;
    ghost var stored, pieces := Stored(convert, arguments, delimiter, ignoreCase), |Pieces(arguments, delimiter)|;
    while |rest| > 0
      invariant |target| == |before| + count
      invariant pieces == count + |Pieces(rest, delimiter)|
      invariant before + stored == target + Stored(convert, rest, delimiter, ignoreCase)
      decreases |rest|
    {
      StoredRound(convert, rest, delimiter, ignoreCase, target);
      var segment;
      segment, rest := CutSegment(rest, delimiter);
      if ignoreCase {
        segment := LowerCase(segment);
      }
      var value := convert(segment);
      if value.None? {
        return Unreadable, target;
      }
      target := target + [value.value];
      count := count + 1;
    }
    outcome := if argumentCount != 0 && count != argumentCount then Refused
               else if argumentCount == 0 && count == 0 then Refused
               else Accepted;
  }

  /** On a delimiter the two splitters give the same list for every input. */
  method SplittersAgree(content: string, delimiter: string) returns (split: seq<string>, extracted: seq<string>)
    requires delimiter != ""
    ensures split == extracted
  {
    split := SplitStringOnDelimiter(content, delimiter);
    var outcome;
    var convert := (s: string) => Some(s);
    outcome, extracted := ExtractAndStoreParamInfo(content, delimiter, false, 0, convert, []);
    AllConvert(convert, split);
    assert LowerAll(split, false) == split;
  }

  lemma AllConvert(convert: string -> Option<string>, pieces: seq<string>)
    requires forall s :: convert(s) == Some(s)
    ensures Convertible(convert, pieces) == pieces
  {
  }

  lemma {:induction false} CutAtFirst(s: string, d: string)
    requires Find(s, d, 0).Some?
    ensures var i := Find(s, d, 0).value; s == s[..i] + d + s[i + |d|..]
  {
    FindIsFirst(s, d, 0);
    var i := Find(s, d, 0).value;
    assert FirstAt(s, d, 0, i);
  }

  /** A one-character delimiter occurs where that character stands. */
  lemma {:induction false} FindCharacter(s: string, c: char)
    ensures Find(s, [c], 0).None? <==> c !in s
    ensures forall i: nat :: Find(s, [c], 0) == Some(i) <==> i < |s| && s[i] == c && c !in s[..i]
  {
    FindIsFirst(s, [c], 0);
    forall j: nat ensures OccursAt(s, [c], j) <==> j < |s| && s[j] == c {
      if j < |s| {
        assert s[j..j + 1] == [s[j]];
      }
    }
    forall i: nat ensures FirstAt(s, [c], 0, i) <==> i < |s| && s[i] == c && c !in s[..i] {
      if i < |s| && c in s[..i] {
        var j :| 0 <= j < i && s[j] == c;
        assert OccursAt(s, [c], j);
      }
      if i < |s| && c !in s[..i] {
        assert forall j :: 0 <= j < i ==> s[j] == s[..i][j];
      }
    }
  }

  lemma {:induction false} JoinCons(p: string, rest: seq<string>, d: string)
    requires rest != []
    ensures Join([p] + rest, d) == p + d + Join(rest, d)
  {
  }

  /** Joining the pieces gives the input back, up to the one trailing delimiter the splitters drop. */
  lemma {:induction false} JoinOfSplit(s: string, d: string)
    requires d != ""
    ensures s == Join(Split(s, d), d) || s == Join(Split(s, d), d) + d
    decreases |s|
  {
    match Find(s, d, 0)
    case None =>
    case Some(i) =>
      var p, t := s[..i], s[i + |d|..];
      CutAtFirst(s, d);
      JoinOfSplit(t, d);
      if t != "" {
        JoinBack(p, t, Split(t, d), d);
      } else {
        assert Split(s, d) == [p];
      }
  }

  lemma JoinBack(p: string, t: string, rest: seq<string>, d: string)
    requires rest != [] && (t == Join(rest, d) || t == Join(rest, d) + d)
    ensures var j := Join([p] + rest, d); p + d + t == j || p + d + t == j + d
  {
    JoinCons(p, rest, d);
    var j := Join(rest, d);
    assert p + d + (j + d) == (p + d + j) + d;
  }

  /** For a one-character delimiter, the joined pieces fall short exactly when the input ends with it. */
  lemma {:induction false} TrailingDelimiter(s: string, c: char)
    ensures s == Join(Split(s, [c]), [c]) + [c] <==> s != "" && s[|s| - 1] == c
    decreases |s|
  {
    match Find(s, [c], 0)
    case None => NoneMeansAbsent(s, c);
    case Some(i) =>
      var p, t := s[..i], s[i + 1..];
      CutAtFirst(s, [c]);
      if t == "" {
        assert Split(s, [c]) == [p];
      } else {
        TrailingDelimiter(t, c);
        TrailingBack(p, t, Split(t, [c]), c);
      }
  }

  lemma NoneMeansAbsent(s: string, c: char)
    requires Find(s, [c], 0).None?
    ensures s != "" ==> s[|s| - 1] != c
  {
    FindCharacter(s, c);
  }

  lemma TrailingBack(p: string, t: string, rest: seq<string>, c: char)
    requires rest != [] && t != "" && (t == Join(rest, [c]) + [c] <==> t[|t| - 1] == c)
    ensures var s := p + [c] + t; s == Join([p] + rest, [c]) + [c] <==> s[|s| - 1] == c
  {
    JoinCons(p, rest, [c]);
    Cancel(p + [c], t, Join(rest, [c]), c);
  }

  lemma Cancel(a: string, t: string, k: string, c: char)
    ensures a + t == (a + k) + [c] <==> t == k + [c]
  {
    if a + t == (a + k) + [c] {
      assert t == (a + t)[|a|..] == ((a + k) + [c])[|a|..];
    }
  }

  /** The lists a splitter can give back: no delimiter starts early in a piece, and the last piece is real. */
  predicate Splittable(pieces: seq<string>, d: string) {
    if pieces == [] then true
    else if |pieces| == 1 then pieces[0] != "" && Find(pieces[0], d, 0).None?
    else Find(pieces[0] + d, d, 0) == Some(|pieces[0]|) && Splittable(pieces[1..], d)
  }

  /** Whether a delimiter starts inside `p` depends only on `p + d`, not on what follows. */
  lemma {:induction false} FirstDelimiter(p: string, d: string, rest: string)
    requires d != ""
    ensures Find(p + d + rest, d, 0).Some? && Find(p + d + rest, d, 0).value <= |p|
    ensures Find(p + d + rest, d, 0) == Some(|p|) <==> Find(p + d, d, 0) == Some(|p|)
  {
    var s := p + d + rest;
    FindIsFirst(s, d, 0);
    FindIsFirst(p + d, d, 0);
    assert OccursAt(s, d, |p|) && OccursAt(p + d, d, |p|);
    forall j | 0 <= j < |p| ensures OccursAt(s, d, j) <==> OccursAt(p + d, d, j) {
      assert s[j..j + |d|] == (p + d)[j..j + |d|];
    }
  }

  /** Splitting a joined list returns the list exactly when the list is splittable. */
  lemma {:induction false} SplitOfJoin(pieces: seq<string>, d: string)
    requires d != ""
    ensures Split(Join(pieces, d), d) == pieces <==> Splittable(pieces, d)
    decreases |pieces|
  {
    if |pieces| == 1 {
      assert pieces == [pieces[0]];
      if Find(pieces[0], d, 0).Some? {
        assert |Split(pieces[0], d)[0]| < |pieces[0]|;
      }
    } else if |pieces| > 1 {
      var p, rest := pieces[0], Join(pieces[1..], d);
      SplitOfJoin(pieces[1..], d);
      FirstDelimiter(p, d, rest);
      SplitFirst(p, d, rest);
      assert pieces == [p] + pieces[1..];
    }
  }

  lemma {:induction false} SplitFirst(p: string, d: string, rest: string)
    requires d != ""
    requires Find(p + d + rest, d, 0).Some? && Find(p + d + rest, d, 0).value <= |p|
    ensures Split(p + d + rest, d) != []
    ensures Find(p + d + rest, d, 0) == Some(|p|) ==> Split(p + d + rest, d) == [p] + Split(rest, d)
    ensures Find(p + d + rest, d, 0) != Some(|p|) ==> |Split(p + d + rest, d)[0]| < |p|
  {
    var s := p + d + rest;
    var i := Find(s, d, 0).value;
    if i == |p| {
      assert s[..i] == p && s[i + |d|..] == rest;
    }
  }

  lemma {:induction false} FirstDelimiterByCharacter(p: string, c: char)
    ensures Find(p + [c], [c], 0) == Some(|p|) <==> c !in p
    ensures Find(p, [c], 0).None? <==> c !in p
  {
    FindCharacter(p, c);
    FindCharacter(p + [c], c);
    assert (p + [c])[..|p|] == p;
  }

  /** For a one-character delimiter: no piece contains it and the last piece is not empty. */
  lemma {:induction false} SplittableByCharacter(pieces: seq<string>, c: char)
    ensures Splittable(pieces, [c]) <==>
            (forall p :: p in pieces ==> c !in p) && (pieces != [] ==> pieces[|pieces| - 1] != "")
    decreases |pieces|
  {
    if pieces != [] {
      FirstDelimiterByCharacter(pieces[0], c);
      SplittableByCharacter(pieces[1..], c);
      assert pieces == [pieces[0]] + pieces[1..];
    }
  }
}
