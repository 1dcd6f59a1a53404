/**
 * Adapter labels of the IDD setup tool: the listing numbers the adapters each pattern matches and prints
 * labels such as "idd2"; the enable/disable manager reads a label back and acts on adapters.
 */
module AdapterLabels {
  import opened Options
  import opened Strings

  datatype PatternType = Description | VendorAndDeviceId

  datatype Pattern = Pattern(abbreviation: string, adaptersToMatch: seq<string>, inverted: bool, kind: PatternType)

  datatype Adapter = Adapter(devID: string, devName: string)

  datatype Line = Line(adapter: Adapter, tag: string)

  /** The two static maps, and the labels the latest listing printed. */
  datatype Listing = Listing(counts: map<string, nat>, ids: map<string, seq<string>>, printed: seq<Line>)

  const INT_MAX := 0x7fff_ffff

  // ---------------------------------------------------------------- decimal numbers

  predicate AllDigits(s: string) {
    forall i :: 0 <= i < |s| ==> '0' <= s[i] <= '9'
  }

  /** The number printed with %u. */
  function Decimal(n: nat): string {
    if n < 10 then ['0' + n as char] else Decimal(n / 10) + ['0' + (n % 10) as char]
  }

  function Value(s: string): nat
    requires AllDigits(s)
  {
    if s == "" then 0 else 10 * Value(s[..|s| - 1]) + (s[|s| - 1] - '0') as nat
  }

  /** std::stoi on a string of digits throws when the number does not fit an int. */
  function StoI(s: string): Option<nat>
    requires AllDigits(s)
  {
    if Value(s) <= INT_MAX then Some(Value(s)) else None
  }

  lemma {:induction false} DecimalRoundTrip(n: nat)
    ensures AllDigits(Decimal(n)) && Decimal(n) != "" && Value(Decimal(n)) == n
    decreases n
  {
    var d := Decimal(n);
    if n < 10 {
      assert d[..|d| - 1] == "" && d[|d| - 1] == '0' + n as char;
    } else {
      DecimalRoundTrip(n / 10);
      assert d[..|d| - 1] == Decimal(n / 10);
    }
  }

  /** Most significant digit first, in base ten. */
  lemma DecimalLooks()
    ensures Decimal(7) == "7" && Decimal(120) == "120" && Value("120") == 120
  {
    assert Decimal(1) == "1" && Decimal(12) == "12";
    assert Decimal(120) == "120";
    DecimalRoundTrip(120);
  }

  // ---------------------------------------------------------------- which adapters a pattern matches

  function Subject(p: Pattern, a: Adapter): string {
    if p.kind == Description then a.devName else a.devID
  }

  predicate SubMatches(p: Pattern, sub: string, a: Adapter) {
    ContainsIgnoringCase(Subject(p, a), sub) != p.inverted
  }

  predicate Matches(p: Pattern, a: Adapter) {
    exists sub :: sub in p.adaptersToMatch && SubMatches(p, sub, a)
  }

  /** The numbering below does not depend on how patterns match. */
  type Matcher = (Pattern, Adapter) -> bool

  const MATCHING: Matcher := (p: Pattern, a: Adapter) => Matches(p, a)

  /** The test of a vendor-and-device pattern: some sub-pattern occurs in the device ID, or for an inverted one does not. */
  predicate TestsId(p: Pattern, a: Adapter) {
    exists sub :: sub in p.adaptersToMatch && Contains(LowerCase(a.devID), LowerCase(sub)) != p.inverted
  }

  /** The test of a description pattern: the same on the device's name. */
  predicate TestsName(p: Pattern, a: Adapter) {
    exists sub :: sub in p.adaptersToMatch && Contains(LowerCase(a.devName), LowerCase(sub)) != p.inverted
  }

  lemma MatchesExactly(p: Pattern, a: Adapter)
    ensures p.kind == VendorAndDeviceId ==> (Matches(p, a) <==> TestsId(p, a))
    ensures p.kind == Description ==> (Matches(p, a) <==> TestsName(p, a))
  {
    if Matches(p, a) {
      var sub :| sub in p.adaptersToMatch && SubMatches(p, sub, a);
      assert p.kind == VendorAndDeviceId ==> Contains(LowerCase(a.devID), LowerCase(sub)) != p.inverted;
      assert p.kind == Description ==> Contains(LowerCase(a.devName), LowerCase(sub)) != p.inverted;
    }
    if p.kind == VendorAndDeviceId && TestsId(p, a) {
      var sub :| sub in p.adaptersToMatch && Contains(LowerCase(a.devID), LowerCase(sub)) != p.inverted;
      assert SubMatches(p, sub, a);
    }
    if p.kind == Description && TestsName(p, a) {
      var sub :| sub in p.adaptersToMatch && Contains(LowerCase(a.devName), LowerCase(sub)) != p.inverted;
      assert SubMatches(p, sub, a);
    }
  }

  /** The IDs of the first `upto` adapters that the pattern matches, in list order. */
  function MatchIDs(hit: Matcher, p: Pattern, adapters: seq<Adapter>, upto: nat): seq<string>
    requires upto <= |adapters|
  {
    if upto == 0 then []
    else MatchIDs(hit, p, adapters, upto - 1) + if hit(p, adapters[upto - 1]) then [adapters[upto - 1].devID] else []
  }

  lemma {:induction false} MatchIDsGrow(hit: Matcher, p: Pattern, adapters: seq<Adapter>, j: nat, m: nat)
    requires j <= m <= |adapters|
    ensures MatchIDs(hit, p, adapters, j) <= MatchIDs(hit, p, adapters, m)
    decreases m
  {
    if j < m {
      MatchIDsGrow(hit, p, adapters, j, m - 1);
    }
  }

  lemma {:induction false} MatchIDsShort(hit: Matcher, p: Pattern, adapters: seq<Adapter>, upto: nat)
    requires upto <= |adapters|
    ensures |MatchIDs(hit, p, adapters, upto)| <= upto
    decreases upto
  {
    if upto > 0 {
      MatchIDsShort(hit, p, adapters, upto - 1);
    }
  }

  /** A matching adapter stands at the position given by the number of matching adapters before it. */
  lemma NthMatching(hit: Matcher, p: Pattern, adapters: seq<Adapter>, j: nat)
    requires j < |adapters| && hit(p, adapters[j])
    ensures var all, n := MatchIDs(hit, p, adapters, |adapters|), |MatchIDs(hit, p, adapters, j)|;
            n < |all| && all[n] == adapters[j].devID && |MatchIDs(hit, p, adapters, j + 1)| == n + 1
  {
    MatchIDsGrow(hit, p, adapters, j + 1, |adapters|);
  }

  /** Every position of the list of IDs belongs to a matching adapter. */
  lemma {:induction false} NthExists(hit: Matcher, p: Pattern, adapters: seq<Adapter>, m: nat, n: nat) returns (j: nat)
    requires m <= |adapters| && n < |MatchIDs(hit, p, adapters, m)|
    ensures j < m && hit(p, adapters[j]) && |MatchIDs(hit, p, adapters, j)| == n
    ensures adapters[j].devID == MatchIDs(hit, p, adapters, m)[n]
    decreases m
  {
    if n < |MatchIDs(hit, p, adapters, m - 1)| {
      j := NthExists(hit, p, adapters, m - 1, n);
    } else {
      j := m - 1;
    }
  }

  // ---------------------------------------------------------------- the listing

  function Count(ls: Listing, abbreviation: string): nat {
    if abbreviation in ls.counts then ls.counts[abbreviation] else 0
  }

  function IDs(ls: Listing, abbreviation: string): seq<string> {
    if abbreviation in ls.ids then ls.ids[abbreviation] else []
  }

  /** The count of an abbreviation is the length of its list, so an index within the count is within the list. */
  ghost predicate Sound(ls: Listing) {
    forall abbreviation :: Count(ls, abbreviation) == |IDs(ls, abbreviation)|
  }

  /** One pattern against one adapter: at most one entry, however many sub-patterns match. */
  function Record(hit: Matcher, ls: Listing, p: Pattern, a: Adapter, verbose: bool): Listing {
    if hit(p, a) then Recorded(ls, p.abbreviation, a, verbose) else ls
  }

  function Recorded(ls: Listing, b: string, a: Adapter, verbose: bool): Listing {
    var n := Count(ls, b) + 1;
    Listing(
      ls.counts[b := n],
      ls.ids[b := (if b in ls.counts then IDs(ls, b) else []) + [a.devID]],
      if verbose then ls.printed + [Line(a, b)] + [Line(a, b + Decimal(n))] else ls.printed)
  }

  function RecordFrom(hit: Matcher, ls: Listing, table: seq<Pattern>, k: nat, a: Adapter, verbose: bool): Listing
    requires k <= |table|
    decreases |table| - k
  {
    if k == |table| then ls else RecordFrom(hit, Record(hit, ls, table[k], a, verbose), table, k + 1, a, verbose)
  }

  /** The state after the first `j` adapters; GetAdapterList clears the maps first. */
  function ListUpto(hit: Matcher, table: seq<Pattern>, adapters: seq<Adapter>, j: nat, verbose: bool): Listing
    requires j <= |adapters|
  {
    if j == 0 then Listing(map[], map[], [])
    else RecordFrom(hit, ListUpto(hit, table, adapters, j - 1, verbose), table, 0, adapters[j - 1], verbose)
  }

  function Listed(table: seq<Pattern>, adapters: seq<Adapter>, verbose: bool): Listing {
    ListUpto(MATCHING, table, adapters, |adapters|, verbose)
  }

  lemma RecordSound(hit: Matcher, ls: Listing, p: Pattern, a: Adapter, verbose: bool)
    requires Sound(ls)
    ensures Sound(Record(hit, ls, p, a, verbose))
  {
    var r, b := Record(hit, ls, p, a, verbose), p.abbreviation;
    forall x ensures Count(r, x) == |IDs(r, x)| {
      assert Count(ls, x) == |IDs(ls, x)|;
    }
  }

  lemma {:induction false} RecordFromSound(hit: Matcher, ls: Listing, table: seq<Pattern>, k: nat, a: Adapter, verbose: bool)
    requires k <= |table| && Sound(ls)
    ensures Sound(RecordFrom(hit, ls, table, k, a, verbose))
    decreases |table| - k
  {
    if k < |table| {
      RecordSound(hit, ls, table[k], a, verbose);
      RecordFromSound(hit, Record(hit, ls, table[k], a, verbose), table, k + 1, a, verbose);
    }
  }

  /** For every table, also one with repeated or overlapping abbreviations. */
  lemma {:induction false} ListedSound(hit: Matcher, table: seq<Pattern>, adapters: seq<Adapter>, j: nat, verbose: bool)
    requires j <= |adapters|
    ensures Sound(ListUpto(hit, table, adapters, j, verbose))
    decreases j
  {
    if j > 0 {
      ListedSound(hit, table, adapters, j - 1, verbose);
      RecordFromSound(hit, ListUpto(hit, table, adapters, j - 1, verbose), table, 0, adapters[j - 1], verbose);
    }
  }

  predicate Overlap(table: seq<Pattern>, i: nat, k: nat) {
    i < |table| && k < |table| && i != k && table[i].abbreviation <= table[k].abbreviation
  }

  ghost predicate PrefixFree(table: seq<Pattern>) {
    forall i: nat, k: nat :: !Overlap(table, i, k)
  }

  ghost predicate LowerTable(table: seq<Pattern>) {
    forall k :: 0 <= k < |table| ==> LowerCase(table[k].abbreviation) == table[k].abbreviation
  }

  /** The tool's own table. Patterns without adapter sub-patterns match no adapter. */
  const SUPPORTED_PATTERNS: seq<Pattern> := [
    Pattern("flex", ["VEN_8086&DEV_56C0", "VEN_8086&DEV_56C1"], false, VendorAndDeviceId),
    Pattern("non-flex", [], true, VendorAndDeviceId),
    Pattern("idd", ["Intel IddSampleDriver Device"], false, Description),
    Pattern("non-idd", [], true, Description),
    Pattern("msft", ["Microsoft Basic Display Adapter"], false, Description),
    Pattern("virtio", [], false, Description)]

  /** The label theorems below apply to the tool's own table. */
  lemma SupportedTableQualifies()
    ensures PrefixFree(SUPPORTED_PATTERNS) && LowerTable(SUPPORTED_PATTERNS)
  {
    var t := SUPPORTED_PATTERNS;
    forall i: nat, k: nat ensures !Overlap(t, i, k) {
      if i < |t| && k < |t| {
        var a, b := t[i].abbreviation, t[k].abbreviation;
        assert i != k ==> a[0] != b[0] || (|a| > 4 && |b| > 4 && a[4] != b[4]);
      }
    }
  }

  /** The printed line is a label of some adapter under some pattern: bare, or numbered by position. */
  ghost predicate GoodLine(hit: Matcher, table: seq<Pattern>, adapters: seq<Adapter>, line: Line, k: nat, j: nat) {
    && k < |table| && j < |adapters| && line.adapter == adapters[j] && hit(table[k], adapters[j])
    && (line.tag == table[k].abbreviation
        || line.tag == table[k].abbreviation + Decimal(|MatchIDs(hit, table[k], adapters, j + 1)|))
  }

  ghost predicate IsLabel(hit: Matcher, table: seq<Pattern>, adapters: seq<Adapter>, line: Line) {
    exists k: nat, j: nat :: GoodLine(hit, table, adapters, line, k, j)
  }

  ghost predicate AllLines(good: Line -> bool, printed: seq<Line>) {
    forall i :: 0 <= i < |printed| ==> good(printed[i])
  }

  /** One adapter adds its ID to the list of each pattern that matches it, and to no other list. */
  lemma {:induction false} RecordFromIDs(hit: Matcher, ls: Listing, table: seq<Pattern>, k: nat, a: Adapter, verbose: bool, i: nat)
    requires k <= |table| && i < |table| && PrefixFree(table) && Sound(ls)
    ensures IDs(RecordFrom(hit, ls, table, k, a, verbose), table[i].abbreviation) ==
            IDs(ls, table[i].abbreviation) + if k <= i && hit(table[i], a) then [a.devID] else []
    decreases |table| - k
  {
    if k < |table| {
      assert !Overlap(table, i, k);
      assert Count(ls, table[k].abbreviation) == |IDs(ls, table[k].abbreviation)|;
      RecordSound(hit, ls, table[k], a, verbose);
      RecordFromIDs(hit, Record(hit, ls, table[k], a, verbose), table, k + 1, a, verbose, i);
    }
  }

  lemma {:induction false} ListUptoIDs(hit: Matcher, table: seq<Pattern>, adapters: seq<Adapter>, j: nat, verbose: bool, i: nat)
    requires j <= |adapters| && i < |table| && PrefixFree(table)
    ensures IDs(ListUpto(hit, table, adapters, j, verbose), table[i].abbreviation) == MatchIDs(hit, table[i], adapters, j)
    decreases j
  {
    if j > 0 {
      ListUptoIDs(hit, table, adapters, j - 1, verbose, i);
      ListedSound(hit, table, adapters, j - 1, verbose);
      RecordFromIDs(hit, ListUpto(hit, table, adapters, j - 1, verbose), table, 0, adapters[j - 1], verbose, i);
    }
  }

  /** After a listing each abbreviation holds the IDs of exactly the adapters its pattern matches, in order. */
  lemma ListedIsMatching(table: seq<Pattern>, adapters: seq<Adapter>, verbose: bool, k: nat)
    requires PrefixFree(table) && k < |table|
    ensures var ls, ids := Listed(table, adapters, verbose), MatchIDs(MATCHING, table[k], adapters, |adapters|);
            IDs(ls, table[k].abbreviation) == ids && Count(ls, table[k].abbreviation) == |ids|
  {
    ListUptoIDs(MATCHING, table, adapters, |adapters|, verbose, k);
    ListedSound(MATCHING, table, adapters, |adapters|, verbose);
    var ls := Listed(table, adapters, verbose);
    assert Count(ls, table[k].abbreviation) == |IDs(ls, table[k].abbreviation)|;
  }

  /** The patterns not yet tried on adapter `j` have counted the adapters before it. */
  ghost predicate CountsBefore(hit: Matcher, ls: Listing, table: seq<Pattern>, adapters: seq<Adapter>, j: nat, k: nat)
    requires j <= |adapters|
  {
    forall i :: k <= i < |table| ==> Count(ls, table[i].abbreviation) == |MatchIDs(hit, table[i], adapters, j)|
  }

  lemma RecordPrints(hit: Matcher, ls: Listing, p: Pattern, a: Adapter, verbose: bool, good: Line -> bool, n: nat)
    requires AllLines(good, ls.printed) && n == Count(ls, p.abbreviation) + 1
    requires hit(p, a) ==> good(Line(a, p.abbreviation)) && good(Line(a, p.abbreviation + Decimal(n)))
    ensures AllLines(good, Record(hit, ls, p, a, verbose).printed)
  {
  }

  lemma NewLines(hit: Matcher, table: seq<Pattern>, adapters: seq<Adapter>, j: nat, k: nat, good: Line -> bool)
    requires j < |adapters| && k < |table| && hit(table[k], adapters[j])
    requires forall line :: IsLabel(hit, table, adapters, line) ==> good(line)
    ensures var b, n := table[k].abbreviation, |MatchIDs(hit, table[k], adapters, j)| + 1;
            good(Line(adapters[j], b)) && good(Line(adapters[j], b + Decimal(n)))
  {
    var b, n := table[k].abbreviation, |MatchIDs(hit, table[k], adapters, j)| + 1;
    assert n == |MatchIDs(hit, table[k], adapters, j + 1)|;
    assert GoodLine(hit, table, adapters, Line(adapters[j], b), k, j);
    assert GoodLine(hit, table, adapters, Line(adapters[j], b + Decimal(n)), k, j);
  }

  lemma RecordCounts(hit: Matcher, ls: Listing, table: seq<Pattern>, adapters: seq<Adapter>, j: nat, k: nat, verbose: bool)
    requires j < |adapters| && k < |table| && PrefixFree(table) && CountsBefore(hit, ls, table, adapters, j, k)
    ensures CountsBefore(hit, Record(hit, ls, table[k], adapters[j], verbose), table, adapters, j, k + 1)
  {
    var r := Record(hit, ls, table[k], adapters[j], verbose);
    forall i | k + 1 <= i < |table| ensures Count(r, table[i].abbreviation) == |MatchIDs(hit, table[i], adapters, j)| {
      assert !Overlap(table, i, k);
    }
  }

  lemma StepPrints(
      hit: Matcher, ls: Listing, table: seq<Pattern>, adapters: seq<Adapter>, j: nat, k: nat, verbose: bool, good: Line -> bool)
    requires j < |adapters| && k < |table|
    requires Count(ls, table[k].abbreviation) == |MatchIDs(hit, table[k], adapters, j)|
    requires forall line :: IsLabel(hit, table, adapters, line) ==> good(line)
    requires AllLines(good, ls.printed)
    ensures AllLines(good, Record(hit, ls, table[k], adapters[j], verbose).printed)
  {
    if hit(table[k], adapters[j]) {
      NewLines(hit, table, adapters, j, k, good);
    }
    RecordPrints(hit, ls, table[k], adapters[j], verbose, good, |MatchIDs(hit, table[k], adapters, j)| + 1);
  }

  lemma {:induction false} RecordFromPrints(
      hit: Matcher, ls: Listing, table: seq<Pattern>, adapters: seq<Adapter>, j: nat, k: nat, verbose: bool, good: Line -> bool)
    requires j < |adapters| && k <= |table| && PrefixFree(table) && CountsBefore(hit, ls, table, adapters, j, k)
    requires forall line :: IsLabel(hit, table, adapters, line) ==> good(line)
    requires AllLines(good, ls.printed)
    ensures AllLines(good, RecordFrom(hit, ls, table, k, adapters[j], verbose).printed)
    decreases |table| - k
  {
    if k < |table| {
      StepPrints(hit, ls, table, adapters, j, k, verbose, good);
      RecordCounts(hit, ls, table, adapters, j, k, verbose);
      RecordFromPrints(hit, Record(hit, ls, table[k], adapters[j], verbose), table, adapters, j, k + 1, verbose, good);
    }
  }

  lemma ListCounts(hit: Matcher, table: seq<Pattern>, adapters: seq<Adapter>, j: nat, verbose: bool)
    requires j <= |adapters| && PrefixFree(table)
    ensures CountsBefore(hit, ListUpto(hit, table, adapters, j, verbose), table, adapters, j, 0)
  {
    var ls := ListUpto(hit, table, adapters, j, verbose);
    ListedSound(hit, table, adapters, j, verbose);
    forall i | 0 <= i < |table| ensures Count(ls, table[i].abbreviation) == |MatchIDs(hit, table[i], adapters, j)| {
      ListUptoIDs(hit, table, adapters, j, verbose, i);
      assert Count(ls, table[i].abbreviation) == |IDs(ls, table[i].abbreviation)|;
    }
  }

  lemma {:induction false} ListingPrints(
      hit: Matcher, table: seq<Pattern>, adapters: seq<Adapter>, j: nat, verbose: bool, good: Line -> bool)
    requires j <= |adapters| && PrefixFree(table)
    requires forall line :: IsLabel(hit, table, adapters, line) ==> good(line)
    ensures AllLines(good, ListUpto(hit, table, adapters, j, verbose).printed)
    decreases j
  {
    if j > 0 {
      ListingPrints(hit, table, adapters, j - 1, verbose, good);
      ListCounts(hit, table, adapters, j - 1, verbose);
      RecordFromPrints(hit, ListUpto(hit, table, adapters, j - 1, verbose), table, adapters, j - 1, 0, verbose, good);
    }
  }

  /** Whatever a listing prints is a label of the adapter it is printed under. */
  lemma PrintedIsLabel(table: seq<Pattern>, adapters: seq<Adapter>, verbose: bool, line: Line)
    requires PrefixFree(table) && line in Listed(table, adapters, verbose).printed
    ensures IsLabel(MATCHING, table, adapters, line)
  {
    var good := (line: Line) => IsLabel(MATCHING, table, adapters, line);
    ListingPrints(MATCHING, table, adapters, |adapters|, verbose, good);
    assert good(line);
  }

  // ---------------------------------------------------------------- everything is printed

  lemma {:induction false} RecordFromGrows(hit: Matcher, ls: Listing, table: seq<Pattern>, k: nat, a: Adapter, verbose: bool)
    requires k <= |table|
    ensures ls.printed <= RecordFrom(hit, ls, table, k, a, verbose).printed
    decreases |table| - k
  {
    if k < |table| {
      RecordFromGrows(hit, Record(hit, ls, table[k], a, verbose), table, k + 1, a, verbose);
    }
  }

  lemma {:induction false} ListGrows(hit: Matcher, table: seq<Pattern>, adapters: seq<Adapter>, j: nat, m: nat, verbose: bool)
    requires j <= m <= |adapters|
    ensures ListUpto(hit, table, adapters, j, verbose).printed <= ListUpto(hit, table, adapters, m, verbose).printed
    decreases m
  {
    if j < m {
      ListGrows(hit, table, adapters, j, m - 1, verbose);
      RecordFromGrows(hit, ListUpto(hit, table, adapters, m - 1, verbose), table, 0, adapters[m - 1], verbose);
    }
  }

  /** The two labels of the adapter in position `j` under pattern `p`. */
  predicate PrintsBoth(hit: Matcher, printed: seq<Line>, p: Pattern, adapters: seq<Adapter>, j: nat)
    requires j < |adapters|
  {
    && Line(adapters[j], p.abbreviation) in printed
    && Line(adapters[j], p.abbreviation + Decimal(|MatchIDs(hit, p, adapters, j)| + 1)) in printed
  }

  lemma RecordPrintsBoth(hit: Matcher, ls: Listing, p: Pattern, adapters: seq<Adapter>, j: nat)
    requires j < |adapters| && hit(p, adapters[j]) && Count(ls, p.abbreviation) == |MatchIDs(hit, p, adapters, j)|
    ensures PrintsBoth(hit, Record(hit, ls, p, adapters[j], true).printed, p, adapters, j)
  {
    var printed, n := Record(hit, ls, p, adapters[j], true).printed, |ls.printed|;
    assert printed[n] == Line(adapters[j], p.abbreviation);
    assert printed[n + 1] == Line(adapters[j], p.abbreviation + Decimal(|MatchIDs(hit, p, adapters, j)| + 1));
  }

  lemma PrintsBothGrows(hit: Matcher, a: seq<Line>, b: seq<Line>, p: Pattern, adapters: seq<Adapter>, j: nat)
    requires j < |adapters| && a <= b && PrintsBoth(hit, a, p, adapters, j)
    ensures PrintsBoth(hit, b, p, adapters, j)
  {
    assert forall line :: line in a ==> line in b;
  }

  lemma {:induction false} RecordFromPrintsBoth(
      hit: Matcher, ls: Listing, table: seq<Pattern>, adapters: seq<Adapter>, j: nat, k: nat, i: nat)
    requires j < |adapters| && k <= i < |table| && PrefixFree(table) && CountsBefore(hit, ls, table, adapters, j, k)
    requires hit(table[i], adapters[j])
    ensures PrintsBoth(hit, RecordFrom(hit, ls, table, k, adapters[j], true).printed, table[i], adapters, j)
    decreases i - k
  {
    if k == i {
      RecordedStays(hit, ls, table, adapters, j, i);
    } else {
      RecordCounts(hit, ls, table, adapters, j, k, true);
      RecordFromPrintsBoth(hit, Record(hit, ls, table[k], adapters[j], true), table, adapters, j, k + 1, i);
    }
  }

  lemma RecordedStays(hit: Matcher, ls: Listing, table: seq<Pattern>, adapters: seq<Adapter>, j: nat, i: nat)
    requires j < |adapters| && i < |table| && hit(table[i], adapters[j])
    requires Count(ls, table[i].abbreviation) == |MatchIDs(hit, table[i], adapters, j)|
    ensures PrintsBoth(hit, RecordFrom(hit, ls, table, i, adapters[j], true).printed, table[i], adapters, j)
  {
    var next := Record(hit, ls, table[i], adapters[j], true);
    RecordPrintsBoth(hit, ls, table[i], adapters, j);
    RecordFromGrows(hit, next, table, i + 1, adapters[j], true);
    PrintsBothGrows(hit, next.printed, RecordFrom(hit, ls, table, i, adapters[j], true).printed, table[i], adapters, j);
  }

  /** A verbose listing prints, for each adapter and each pattern that matches it, the bare and the numbered label. */
  lemma VerbosePrintsEveryMatch(table: seq<Pattern>, adapters: seq<Adapter>, j: nat, i: nat)
    requires PrefixFree(table) && j < |adapters| && i < |table| && Matches(table[i], adapters[j])
    ensures PrintsBoth(MATCHING, Listed(table, adapters, true).printed, table[i], adapters, j)
  {
    var ls := ListUpto(MATCHING, table, adapters, j, true);
    ListCounts(MATCHING, table, adapters, j, true);
    RecordFromPrintsBoth(MATCHING, ls, table, adapters, j, 0, i);
    ListGrows(MATCHING, table, adapters, j + 1, |adapters|, true);
    PrintsBothGrows(MATCHING, ListUpto(MATCHING, table, adapters, j + 1, true).printed,
                    Listed(table, adapters, true).printed, table[i], adapters, j);
  }

  // ---------------------------------------------------------------- reading a label

  datatype Reading = Rejected | Hit(id: string) | Throws

  /** One pattern of the table against the text the user typed; a bare abbreviation has no target ID. */
  function Read(p: Pattern, ls: Listing, text: string): Reading
    requires Sound(ls)
  {
    if !(p.abbreviation <= text) then Rejected
    else if |text| == |p.abbreviation| then Hit("")
    else
      var index := text[|p.abbreviation|..];
      if !AllDigits(index) then Rejected
      else match StoI(index)
        case None => Throws
        case Some(n) =>
          if n < 1 || n > Count(ls, p.abbreviation) then Rejected
          else
            assert Count(ls, p.abbreviation) == |IDs(ls, p.abbreviation)|;
            Hit(IDs(ls, p.abbreviation)[n - 1])
  }

  datatype Resolution = Target(k: nat, id: string) | Unmatched | Overflow

  function ResolveFrom(table: seq<Pattern>, ls: Listing, text: string, k: nat): (r: Resolution)
    requires k <= |table| && Sound(ls)
    ensures r.Target? ==> k <= r.k < |table|
    decreases |table| - k
  {
    if k == |table| then Unmatched
    else match Read(table[k], ls, text)
      case Rejected => ResolveFrom(table, ls, text, k + 1)
      case Hit(id) => Target(k, id)
      case Throws => Overflow
  }

  lemma {:induction false} ResolveSkips(table: seq<Pattern>, ls: Listing, text: string, k: nat, m: nat)
    requires k <= m <= |table| && Sound(ls)
    requires forall i :: k <= i < m ==> Read(table[i], ls, text) == Rejected
    ensures ResolveFrom(table, ls, text, k) == ResolveFrom(table, ls, text, m)
    decreases m - k
  {
    if k < m {
      ResolveSkips(table, ls, text, k + 1, m);
    }
  }

  lemma PrefixesCompare(a: string, b: string, text: string)
    ensures a <= text && b <= text ==> a <= b || b <= a
  {
  }

  /** In a prefix-free table a text that starts with an abbreviation is decided by that entry alone. */
  lemma ResolveByPrefix(table: seq<Pattern>, ls: Listing, text: string, k: nat)
    requires PrefixFree(table) && Sound(ls) && k < |table| && table[k].abbreviation <= text
    ensures ResolveFrom(table, ls, text, 0) ==
            match Read(table[k], ls, text)
            case Rejected => Unmatched
            case Hit(id) => Target(k, id)
            case Throws => Overflow
  {
    forall i | 0 <= i < |table| && i != k ensures Read(table[i], ls, text) == Rejected {
      assert !Overlap(table, i, k) && !Overlap(table, k, i);
      PrefixesCompare(table[i].abbreviation, table[k].abbreviation, text);
    }
    ResolveSkips(table, ls, text, 0, k);
    if Read(table[k], ls, text) == Rejected {
      ResolveSkips(table, ls, text, k, |table|);
    }
  }

  // ---------------------------------------------------------------- acting on adapters

  /** The test inside EnableDisableAdapter: the device ID must start the target ID, when there is one. */
  predicate Selected(a: Adapter, target: string) {
    target == "" || a.devID <= target
  }

  /** The adapters one call of EnableDisableAdapter changes, in list order. */
  function ActsFor(p: Pattern, sub: string, adapters: seq<Adapter>, target: string, upto: nat): seq<nat>
    requires upto <= |adapters|
  {
    if upto == 0 then []
    else
      ActsFor(p, sub, adapters, target, upto - 1)
      + if SubMatches(p, sub, adapters[upto - 1]) && Selected(adapters[upto - 1], target) then [upto - 1] else []
  }

  lemma {:induction false} ActsForExactly(p: Pattern, sub: string, adapters: seq<Adapter>, target: string, upto: nat, i: nat)
    requires upto <= |adapters|
    ensures i in ActsFor(p, sub, adapters, target, upto) <==>
              i < upto && SubMatches(p, sub, adapters[i]) && Selected(adapters[i], target)
    decreases upto
  {
    if upto > 0 {
      ActsForExactly(p, sub, adapters, target, upto - 1, i);
      var acts := SubMatches(p, sub, adapters[upto - 1]) && Selected(adapters[upto - 1], target);
      InExtended(i, ActsFor(p, sub, adapters, target, upto - 1), acts, upto - 1);
    }
  }

  lemma InExtended(i: nat, list: seq<nat>, more: bool, x: nat)
    ensures i in list + (if more then [x] else []) <==> i in list || (more && i == x)
  {
  }

  function Concat(lists: seq<seq<nat>>): seq<nat> {
    if lists == [] then [] else Concat(lists[..|lists| - 1]) + lists[|lists| - 1]
  }

  lemma {:induction false} InConcat(lists: seq<seq<nat>>, i: nat)
    ensures i in Concat(lists) <==> exists q :: 0 <= q < |lists| && i in lists[q]
    decreases |lists|
  {
    if lists != [] {
      var n := |lists| - 1;
      InConcat(lists[..n], i);
      if i in Concat(lists[..n]) {
        var q :| 0 <= q < n && i in lists[..n][q];
        assert i in lists[q];
      }
      if exists q :: 0 <= q < n && i in lists[q] {
        var q :| 0 <= q < n && i in lists[q];
        assert i in lists[..n][q];
      }
    }
  }

  /** One call per sub-pattern. */
  function Calls(p: Pattern, adapters: seq<Adapter>, target: string): (lists: seq<seq<nat>>)
    ensures |lists| == |p.adaptersToMatch|
    ensures forall q :: 0 <= q < |lists| ==> lists[q] == ActsFor(p, p.adaptersToMatch[q], adapters, target, |adapters|)
  {
    seq(|p.adaptersToMatch|, q requires 0 <= q < |p.adaptersToMatch| =>
      ActsFor(p, p.adaptersToMatch[q], adapters, target, |adapters|))
  }

  function AllActs(p: Pattern, adapters: seq<Adapter>, target: string): seq<nat> {
    Concat(Calls(p, adapters, target))
  }

  /** Changed are exactly the adapters the pattern matches whose ID starts the target ID, if one is given. */
  lemma ActsExactly(p: Pattern, adapters: seq<Adapter>, target: string)
    ensures forall i: nat :: i in AllActs(p, adapters, target) <==>
              i < |adapters| && Matches(p, adapters[i]) && (target == "" || adapters[i].devID <= target)
  {
    forall i: nat ensures i in AllActs(p, adapters, target) <==>
        i < |adapters| && Matches(p, adapters[i]) && Selected(adapters[i], target)
    {
      InConcat(Calls(p, adapters, target), i);
      InCalls(p, adapters, target, i);
    }
  }

  lemma InCalls(p: Pattern, adapters: seq<Adapter>, target: string, i: nat)
    ensures (exists q :: 0 <= q < |p.adaptersToMatch| && i in Calls(p, adapters, target)[q]) <==>
            i < |adapters| && Matches(p, adapters[i]) && Selected(adapters[i], target)
  {
    var subs, lists := p.adaptersToMatch, Calls(p, adapters, target);
    if exists q :: 0 <= q < |subs| && i in lists[q] {
      var q :| 0 <= q < |subs| && i in lists[q];
      ActsForExactly(p, subs[q], adapters, target, |adapters|, i);
      assert subs[q] in subs;
    }
    if i < |adapters| && Matches(p, adapters[i]) && Selected(adapters[i], target) {
      var sub :| sub in subs && SubMatches(p, sub, adapters[i]);
      var q :| 0 <= q < |subs| && subs[q] == sub;
      ActsForExactly(p, subs[q], adapters, target, |adapters|, i);
      assert i in lists[q];
    }
  }

  datatype Outcome = Changed(which: seq<nat>) | NoPattern | Threw

  function Act(table: seq<Pattern>, adapters: seq<Adapter>, r: Resolution): Outcome
    requires r.Target? ==> r.k < |table|
  {
    match r
    case Target(k, id) => Changed(AllActs(table[k], adapters, id))
    case Unmatched => NoPattern
    case Overflow => Threw
  }

  function Managed(table: seq<Pattern>, adapters: seq<Adapter>, verbose: bool, text: string): Outcome {
    ListedSound(MATCHING, table, adapters, |adapters|, verbose);
    Act(table, adapters, ResolveFrom(table, Listed(table, adapters, verbose), LowerCase(text), 0))
  }

  // ---------------------------------------------------------------- the label round trip

  lemma LabelReads(table: seq<Pattern>, adapters: seq<Adapter>, verbose: bool, k: nat, n: nat)
    requires PrefixFree(table) && k < |table|
    ensures Sound(Listed(table, adapters, verbose))
    ensures var b, ids := table[k].abbreviation, MatchIDs(MATCHING, table[k], adapters, |adapters|);
            Read(table[k], Listed(table, adapters, verbose), b + Decimal(n)) ==
              if n > INT_MAX then Throws else if 1 <= n <= |ids| then Hit(ids[n - 1]) else Rejected
  {
    ListedSound(MATCHING, table, adapters, |adapters|, verbose);
    var b := table[k].abbreviation;
    DecimalRoundTrip(n);
    assert (b + Decimal(n))[|b|..] == Decimal(n);
    ListedIsMatching(table, adapters, verbose, k);
  }

  /**
   * What a numbered label does, in any casing and for every number: it changes the adapters selected by
   * the ID of the n-th matching adapter, or names no pattern when there is no such adapter.
   */
  lemma LabelActs(table: seq<Pattern>, adapters: seq<Adapter>, verbose: bool, k: nat, n: nat, text: string)
    requires PrefixFree(table) && LowerTable(table) && k < |table|
    requires LowerCase(text) == LowerCase(table[k].abbreviation + Decimal(n))
    ensures var ids := MatchIDs(MATCHING, table[k], adapters, |adapters|);
            Managed(table, adapters, verbose, text) ==
              if n > 0x7fff_ffff then Threw
              else if 1 <= n <= |ids| then Changed(AllActs(table[k], adapters, ids[n - 1]))
              else NoPattern
  {
    ListedSound(MATCHING, table, adapters, |adapters|, verbose);
    LabelReads(table, adapters, verbose, k, n);
    LowerLabel(table[k].abbreviation, n);
    ResolveByPrefix(table, Listed(table, adapters, verbose), LowerCase(text), k);
  }

  /** A number within the count reaches the adapter with that many matching adapters up to it. */
  lemma LabelReachesNth(table: seq<Pattern>, adapters: seq<Adapter>, verbose: bool, k: nat, n: nat, text: string) returns (j: nat)
    requires PrefixFree(table) && LowerTable(table) && k < |table|
    requires LowerCase(text) == LowerCase(table[k].abbreviation + Decimal(n))
    requires 1 <= n <= |MatchIDs(MATCHING, table[k], adapters, |adapters|)| && n <= INT_MAX
    ensures j < |adapters| && Matches(table[k], adapters[j]) && |MatchIDs(MATCHING, table[k], adapters, j)| == n - 1
    ensures Managed(table, adapters, verbose, text) == Changed(AllActs(table[k], adapters, adapters[j].devID))
    ensures j in AllActs(table[k], adapters, adapters[j].devID)
  {
    j := NthExists(MATCHING, table[k], adapters, |adapters|, n - 1);
    LabelActs(table, adapters, verbose, k, n, text);
    ActsExactly(table[k], adapters, adapters[j].devID);
  }

  lemma LowerLabel(b: string, n: nat)
    requires LowerCase(b) == b
    ensures LowerCase(b + Decimal(n)) == b + Decimal(n)
  {
    var s := b + Decimal(n);
    DecimalRoundTrip(n);
    forall i | 0 <= i < |s| ensures LowerChar(s[i]) == s[i] {
      if i < |b| {
        assert LowerCase(b)[i] == LowerChar(b[i]);
      } else {
        assert s[i] == Decimal(n)[i - |b|];
      }
    }
  }

  /** An abbreviation written with a capital letter is never reached, whatever is typed. */
  lemma CapitalNeverReached(p: Pattern, ls: Listing, text: string)
    requires Sound(ls) && LowerCase(p.abbreviation) != p.abbreviation
    ensures Read(p, ls, LowerCase(text)) == Rejected
  {
  }

  lemma BareLabelActs(table: seq<Pattern>, adapters: seq<Adapter>, verbose: bool, k: nat, text: string)
    requires PrefixFree(table) && LowerTable(table) && k < |table| && LowerCase(text) == LowerCase(table[k].abbreviation)
    ensures Managed(table, adapters, verbose, text) == Changed(AllActs(table[k], adapters, ""))
  {
    ListedSound(MATCHING, table, adapters, |adapters|, verbose);
    ResolveByPrefix(table, Listed(table, adapters, verbose), LowerCase(text), k);
  }

  /**
   * Round trip: every label the listing prints under an adapter, typed back in any casing, changes that
   * adapter; a numbered one changes, besides, only adapters selected by that adapter's ID.
   */
  lemma PrintedLabelWorks(table: seq<Pattern>, adapters: seq<Adapter>, verbose: bool, line: Line, text: string)
    requires PrefixFree(table) && LowerTable(table) && |adapters| <= INT_MAX
    requires line in Listed(table, adapters, true).printed && LowerCase(text) == LowerCase(line.tag)
    ensures exists k, target ::
              && 0 <= k < |table| && target in {"", line.adapter.devID}
              && (target == "" <== line.tag == table[k].abbreviation)
              && (target == line.adapter.devID <== line.tag != table[k].abbreviation)
              && Managed(table, adapters, verbose, text) == Changed(AllActs(table[k], adapters, target))
              && exists i: nat :: i in AllActs(table[k], adapters, target) && i < |adapters| && adapters[i] == line.adapter
  {
    PrintedIsLabel(table, adapters, true, line);
    var k: nat, j: nat :| GoodLine(MATCHING, table, adapters, line, k, j);
    var target := if line.tag == table[k].abbreviation then "" else line.adapter.devID;
    LineActs(table, adapters, verbose, line, k, j, text);
    ActsReach(table[k], adapters, j, target);
  }

  /** The manager acts on the ID of the adapter the line was printed under, or on no ID for a bare label. */
  lemma LineActs(table: seq<Pattern>, adapters: seq<Adapter>, verbose: bool, line: Line, k: nat, j: nat, text: string)
    requires PrefixFree(table) && LowerTable(table) && |adapters| <= INT_MAX
    requires GoodLine(MATCHING, table, adapters, line, k, j) && LowerCase(text) == LowerCase(line.tag)
    ensures var target := if line.tag == table[k].abbreviation then "" else line.adapter.devID;
            Managed(table, adapters, verbose, text) == Changed(AllActs(table[k], adapters, target))
  {
    var p := table[k];
    if line.tag == p.abbreviation {
      BareLabelActs(table, adapters, verbose, k, text);
    } else {
      var n := |MatchIDs(MATCHING, p, adapters, j + 1)|;
      NthMatching(MATCHING, p, adapters, j);
      MatchIDsShort(MATCHING, p, adapters, |adapters|);
      LabelActs(table, adapters, verbose, k, n, text);
    }
  }

  lemma ActsReach(p: Pattern, adapters: seq<Adapter>, j: nat, target: string)
    requires j < |adapters| && Matches(p, adapters[j]) && target in {"", adapters[j].devID}
    ensures j in AllActs(p, adapters, target)
  {
    ActsExactly(p, adapters, target);
  }

  /**
   * Listed and changed by the right text: a vendor-and-device pattern looks at device IDs, a description pattern
   * at names. An adapter is in the list at its position, and the bare label changes it, exactly when the test holds.
   */
  lemma ListedAndChangedExactly(table: seq<Pattern>, adapters: seq<Adapter>, verbose: bool, k: nat, j: nat, text: string)
    requires PrefixFree(table) && LowerTable(table) && k < |table| && j < |adapters|
    requires LowerCase(text) == LowerCase(table[k].abbreviation)
    ensures var p := table[k];
            var test := if p.kind == VendorAndDeviceId then TestsId(p, adapters[j]) else TestsName(p, adapters[j]);
            var ids, n := IDs(Listed(table, adapters, verbose), p.abbreviation), |MatchIDs(MATCHING, p, adapters, j)|;
            && Managed(table, adapters, verbose, text).Changed?
            && (j in Managed(table, adapters, verbose, text).which <==> test)
            && |MatchIDs(MATCHING, p, adapters, j + 1)| == n + (if test then 1 else 0)
            && (test ==> n < |ids| && ids[n] == adapters[j].devID)
  {
    var p := table[k];
    MatchesExactly(p, adapters[j]);
    BareLabelActs(table, adapters, verbose, k, text);
    ActsExactly(p, adapters, "");
    ListedIsMatching(table, adapters, verbose, k);
    if Matches(p, adapters[j]) {
      NthMatching(MATCHING, p, adapters, j);
    }
  }

  lemma ContainsFolds(s: string, d: string)
    requires Contains(s, d)
    ensures Contains(LowerCase(s), LowerCase(d))
  {
    var i :| 0 <= i <= |s| && OccursAt(s, d, i);
    var a, b := LowerCase(s)[i..i + |d|], LowerCase(d);
    forall k | 0 <= k < |d| ensures a[k] == b[k] {
      assert d[k] == s[i..i + |d|][k];
    }
    assert OccursAt(LowerCase(s), LowerCase(d), i);
  }

  /** Every adapter with a Flex device ID is listed under "flex" and changed by typing it. */
  lemma FlexAdaptersAreReached(adapters: seq<Adapter>, verbose: bool, j: nat)
    requires j < |adapters|
    requires Contains(adapters[j].devID, "VEN_8086&DEV_56C0") || Contains(adapters[j].devID, "VEN_8086&DEV_56C1")
    ensures adapters[j].devID in IDs(Listed(SUPPORTED_PATTERNS, adapters, verbose), "flex")
    ensures var outcome := Managed(SUPPORTED_PATTERNS, adapters, verbose, "flex");
            outcome.Changed? && j in outcome.which
  {
    var p := SUPPORTED_PATTERNS[0];
    var sub := if Contains(adapters[j].devID, "VEN_8086&DEV_56C0") then "VEN_8086&DEV_56C0" else "VEN_8086&DEV_56C1";
    ContainsFolds(adapters[j].devID, sub);
    assert p.adaptersToMatch[0] == "VEN_8086&DEV_56C0" && p.adaptersToMatch[1] == "VEN_8086&DEV_56C1";
    assert sub in p.adaptersToMatch;
    assert TestsId(p, adapters[j]);
    SupportedTableQualifies();
    ListedAndChangedExactly(SUPPORTED_PATTERNS, adapters, verbose, 0, j, "flex");
  }

  /** A text that starts with no abbreviation, or goes on after one with something other than digits, names no pattern. */
  lemma OtherTextNamesNone(table: seq<Pattern>, adapters: seq<Adapter>, verbose: bool, text: string)
    requires forall k :: 0 <= k < |table| && table[k].abbreviation <= LowerCase(text) ==>
               |table[k].abbreviation| < |text| && !AllDigits(LowerCase(text)[|table[k].abbreviation|..])
    ensures Managed(table, adapters, verbose, text) == NoPattern
  {
    ListedSound(MATCHING, table, adapters, |adapters|, verbose);
    var ls := Listed(table, adapters, verbose);
    assert forall k :: 0 <= k < |table| ==> Read(table[k], ls, LowerCase(text)) == Rejected;
    ResolveSkips(table, ls, LowerCase(text), 0, |table|);
  }

  /**
   * "No adapter whose ID does not start the target ID is changed" holds exactly when the target ID is not
   * empty or no matching adapter has a non-empty ID: an empty target ID reads as no target at all.
   */
  lemma OnlyPrefixesChangedIff(p: Pattern, adapters: seq<Adapter>, target: string)
    ensures (forall i: nat :: i in AllActs(p, adapters, target) ==> i < |adapters| && adapters[i].devID <= target) <==>
            target != "" || forall a :: a in adapters && Matches(p, a) ==> a.devID == ""
  {
    ActsExactly(p, adapters, target);
    if target == "" {
      forall a | a in adapters && Matches(p, a) && a.devID != ""
        ensures exists i: nat :: i in AllActs(p, adapters, target) && !(i < |adapters| && adapters[i].devID <= target)
      {
        var i: nat :| i < |adapters| && adapters[i] == a;
        assert i in AllActs(p, adapters, target);
      }
    }
  }

  /** A numbered label whose adapter reports an empty ID changes every matching adapter. */
  lemma EmptyIdChangesAll()
    ensures var p, adapters := Pattern("idd", ["idd"], false, Description), [Adapter("", "idd"), Adapter("X", "idd")];
            Managed([p], adapters, false, "idd1") == Changed(AllActs(p, adapters, "")) && 1 in AllActs(p, adapters, "")
  {
    var p, adapters := Pattern("idd", ["idd"], false, Description), [Adapter("", "idd"), Adapter("X", "idd")];
    forall a | a in adapters ensures Matches(p, a) {
      assert OccursAt(LowerCase("idd"), LowerCase("idd"), 0);
      assert SubMatches(p, p.adaptersToMatch[0], a);
    }
    assert Matches(p, adapters[0]) && Matches(p, adapters[1]);
    NthMatching(MATCHING, p, adapters, 0);
    assert Decimal(1) == "1";
    assert "idd1" == p.abbreviation + Decimal(1);
    LabelActs([p], adapters, false, 0, 1, "idd1");
    ActsExactly(p, adapters, "");
  }

  // ---------------------------------------------------------------- the tool

  lemma FindsAtStart(s: string, d: string)
    ensures Find(s, d, 0) == Some(0) <==> d <= s
  {
  }

  /** The loop that looks for a character outside "0123456789". */
  method IsIndexString(s: string) returns (has: bool)
    ensures has <==> AllDigits(s)
  {
    has := true;
    for i := 0 to |s|
      invariant has <==> AllDigits(s[..i])
    {
      DigitFound(s[i]);
      if Find("0123456789", [s[i]], 0).None? {
        has := false;
      }
      assert s[..i + 1] == s[..i] + [s[i]];
    }
    assert s[..|s|] == s;
  }

  lemma DigitFound(c: char)
    ensures Find("0123456789", [c], 0).None? <==> !('0' <= c <= '9')
  {
    FindCharacter("0123456789", c);
    DigitSet(c);
  }

  lemma DigitSet(c: char)
    ensures c in "0123456789" <==> '0' <= c <= '9'
  {
  }

  /** Equal listings, up to zero counts for abbreviations that were only looked up. */
  ghost predicate SameButZeros(a: Listing, b: Listing) {
    a.ids == b.ids && a.printed == b.printed && forall x :: Count(a, x) == Count(b, x)
  }

  class AdapterTool {
    const table: seq<Pattern>
    var patternMatchCounts: map<string, nat>
    var deviceIDsForIndexedPatterns: map<string, seq<string>>
    var printed: seq<Line>

    constructor (table: seq<Pattern>)
      ensures this.table == table && Now() == Listing(map[], map[], [])
    {
      this.table := table;
      patternMatchCounts, deviceIDsForIndexedPatterns, printed := map[], map[], [];
    }

    ghost function Now(): Listing
      reads this
    {
      Listing(patternMatchCounts, deviceIDsForIndexedPatterns, printed)
    }

    /** The loop over sub-patterns stops at the first that matches. */
    method MatchesPattern(p: Pattern, a: Adapter) returns (found: bool)
      ensures found <==> Matches(p, a)
    {
      for s := 0 to |p.adaptersToMatch|
        invariant forall t :: 0 <= t < s ==> !SubMatches(p, p.adaptersToMatch[t], a)
      {
        var contains := CheckIfStringContainsPattern(Subject(p, a), p.adaptersToMatch[s], true);
        if contains != p.inverted {
          assert SubMatches(p, p.adaptersToMatch[s], a);
          return true;
        }
      }
      return false;
    }

    /** The body of the loop over patterns: a matching adapter is recorded once. */
    method CheckPattern(p: Pattern, a: Adapter, verbose: bool)
      modifies this
      ensures Now() == Record(MATCHING, old(Now()), p, a, verbose)
    {
      var found := MatchesPattern(p, a);
      if found {
        RecordMatch(p.abbreviation, a, verbose);
      }
    }

    method RecordMatch(b: string, a: Adapter, verbose: bool)
      modifies this
      ensures Now() == Recorded(old(Now()), b, a, verbose)
    {
      if b !in patternMatchCounts {
        patternMatchCounts := patternMatchCounts[b := 1];
        deviceIDsForIndexedPatterns := deviceIDsForIndexedPatterns[b := []];
      } else {
        patternMatchCounts := patternMatchCounts[b := patternMatchCounts[b] + 1];
      }
      var list := if b in deviceIDsForIndexedPatterns then deviceIDsForIndexedPatterns[b] else [];
      deviceIDsForIndexedPatterns := deviceIDsForIndexedPatterns[b := list + [a.devID]];
      if verbose {
        printed := printed + [Line(a, b)] + [Line(a, b + Decimal(patternMatchCounts[b]))];
      }
    }

    method CheckEnableDisablePatternMatches(a: Adapter, verbose: bool)
      modifies this
      ensures Now() == RecordFrom(MATCHING, old(Now()), table, 0, a, verbose)
    {
      for k := 0 to |table|
        invariant RecordFrom(MATCHING, Now(), table, k, a, verbose) == RecordFrom(MATCHING, old(Now()), table, 0, a, verbose)
      {
        CheckPattern(table[k], a, verbose);
      }
    }

    /** The adapters are what the system enumerates; the maps are cleared first. */
    method GetAdapterList(adapters: seq<Adapter>, verbose: bool)
      modifies this
      ensures Now() == Listed(table, adapters, verbose)
    {
      patternMatchCounts, deviceIDsForIndexedPatterns, printed := map[], map[], [];
      for j := 0 to |adapters|
        invariant Now() == ListUpto(MATCHING, table, adapters, j, verbose)
      {
        CheckEnableDisablePatternMatches(adapters[j], verbose);
      }
    }

    method EnableDisableAdapter(adapters: seq<Adapter>, p: Pattern, sub: string, target: string) returns (changed: seq<nat>)
      ensures changed == ActsFor(p, sub, adapters, target, |adapters|)
    {
      changed := [];
      for i := 0 to |adapters|
        invariant changed == ActsFor(p, sub, adapters, target, i)
      {
        var a := adapters[i];
        var contains := CheckIfStringContainsPattern(Subject(p, a), sub, true);
        FindsAtStart(target, a.devID);
        if contains != p.inverted {
          if |target| > 0 && Find(target, a.devID, 0) != Some(0) {
            continue;
          }
          changed := changed + [i];
        }
      }
    }

    /** The manager's loop over the sub-patterns of the entry it settled on. */
    method EnableDisableAll(adapters: seq<Adapter>, p: Pattern, target: string) returns (changed: seq<nat>)
      ensures changed == AllActs(p, adapters, target)
    {
      changed := [];
      ghost var calls := Calls(p, adapters, target);
      for m := 0 to |p.adaptersToMatch|
        invariant changed == Concat(calls[..m])
      {
        var more := EnableDisableAdapter(adapters, p, p.adaptersToMatch[m], target);
        assert calls[..m + 1][..m] == calls[..m];
        changed := changed + more;
      }
      assert calls[..|calls|] == calls;
    }

    /** Reading a count through operator[] leaves a zero behind for an abbreviation not yet counted. */
    method CountOf(b: string) returns (n: nat)
      modifies this`patternMatchCounts
      ensures n == Count(old(Now()), b)
      ensures SameButZeros(Now(), old(Now()))
    {
      if b !in patternMatchCounts {
        patternMatchCounts := patternMatchCounts[b := 0];
      }
      n := patternMatchCounts[b];
    }

    /** One table entry of the manager. The list lookup is in bounds for every table. */
    method ReadEntry(p: Pattern, text: string) returns (r: Reading)
      requires Sound(Now())
      modifies this`patternMatchCounts
      ensures r == Read(p, old(Now()), text)
      ensures SameButZeros(Now(), old(Now()))
    {
      var b := p.abbreviation;
      FindsAtStart(text, b);
      if Find(text, b, 0) != Some(0) {
        return Rejected;
      }
      if |text| == |b| {
        return Hit("");
      }
      var index := text[|b|..];
      var has := IsIndexString(index);
      if !has {
        return Rejected;
      }
      var value := StoI(index);
      if value.None? {
        return Throws;
      }
      var count := CountOf(b);
      if value.value < 1 || value.value > count {
        return Rejected;
      }
      assert count == |IDs(old(Now()), b)|;
      return Hit(deviceIDsForIndexedPatterns[b][value.value - 1]);
    }

    method EnableDisableDisplayAdapterManager(adapters: seq<Adapter>, verbose: bool, text: string) returns (outcome: Outcome)
      modifies this
      ensures outcome == Managed(table, adapters, verbose, text)
      ensures SameButZeros(Now(), Listed(table, adapters, verbose))
    {
      GetAdapterList(adapters, verbose);
      ListedSound(MATCHING, table, adapters, |adapters|, verbose);
      outcome := ManageListed(adapters, LowerCase(text));
    }

    /** The manager's loop over the table, up to the first entry that is a full match. */
    method ManageListed(adapters: seq<Adapter>, text: string) returns (outcome: Outcome)
      requires Sound(Now())
      modifies this`patternMatchCounts
      ensures outcome == Act(table, adapters, ResolveFrom(table, old(Now()), text, 0))
      ensures SameButZeros(Now(), old(Now()))
    {
      ghost var listed := Now();
      for k := 0 to |table|
        invariant SameButZeros(Now(), listed)
        invariant ResolveFrom(table, listed, text, k) == ResolveFrom(table, listed, text, 0)
      {
        SameReading(table[k], Now(), listed, text);
        var r := ReadEntry(table[k], text);
        match r
        case Throws => return Threw;
        case Rejected =>
        case Hit(id) =>
          var changed := EnableDisableAll(adapters, table[k], id);
          return Changed(changed);
      }
      return NoPattern;
    }
  }

  lemma SameReading(p: Pattern, a: Listing, b: Listing, text: string)
    requires Sound(b) && SameButZeros(a, b)
    ensures Sound(a) && Read(p, a, text) == Read(p, b, text)
  {
  }
}
