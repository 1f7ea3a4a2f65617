/** CPU lists as text: what the launcher hands to numactl, and what it reads back from the environment. */
module CoreList {
  import opened Sequences
  import opened Strings
  import opened CpuAllocation

  // ---- Numbers ----

  function Digit(d: nat): (c: char)
    requires d < 10
    ensures '0' <= c <= '9'
  {
    ('0' as int + d) as char
  }

  /** A number in decimal. */
  function Show(n: nat): (s: string)
    ensures s != []
    decreases n
  {
    if n < 10 then [Digit(n)] else Show(n / 10) + [Digit(n % 10)]
  }

  predicate IsDigit(c: char) {
    '0' <= c <= '9'
  }

  /** The white space of ASCII, separators included. */
  predicate IsSpace(c: char) {
    9 <= c as int <= 13 || 28 <= c as int <= 32
  }

  function TrimRight(s: string): string {
    if s != [] && IsSpace(s[|s| - 1]) then TrimRight(s[..|s| - 1]) else s
  }

  function TrimLeft(s: string): string {
    if s != [] && IsSpace(s[0]) then TrimLeft(s[1..]) else s
  }

  /** Digits, with single underscores allowed between them. */
  function ReadDigits(s: string): Result<nat> {
    if s == [] || !IsDigit(s[|s| - 1]) then Err
    else
      var d, before := s[|s| - 1] as int - '0' as int, s[..|s| - 1];
      if before == [] then Ok(d)
      else
        var high := ReadDigits(if before[|before| - 1] == '_' then before[..|before| - 1] else before);
        if high.Err? then Err else Ok(10 * high.value + d)
  }

  function Unsigned(s: string): string {
    if s != [] && s[0] == '+' then s[1..] else s
  }

  /** `int` on a piece between dashes: white space around the number, a plus sign and single underscores are
      accepted. */
  function ReadNumber(s: string): Result<nat> {
    ReadDigits(Unsigned(TrimLeft(TrimRight(s))))
  }

  lemma {:induction false} ReadDigitsShow(n: nat)
    ensures ReadDigits(Show(n)) == Ok(n)
    decreases n
  {
    if n >= 10 {
      ReadDigitsShow(n / 10);
      ShowDigits(n / 10);
      var s, high := Show(n), Show(n / 10);
      assert s[..|s| - 1] == high;
      assert high[|high| - 1] in high;
    }
  }

  lemma {:induction false} ShowDigits(n: nat)
    ensures forall c :: c in Show(n) ==> IsDigit(c)
    decreases n
  {
    if n >= 10 {
      ShowDigits(n / 10);
    }
  }

  ghost predicate Blank(s: string) {
    forall i :: 0 <= i < |s| ==> IsSpace(s[i])
  }

  lemma {:induction false} TrimRightBlank(s: string, blank: string)
    requires s != [] && !IsSpace(s[|s| - 1]) && Blank(blank)
    ensures TrimRight(s + blank) == s
    decreases |blank|
  {
    if blank == [] {
      assert s + blank == s;
    } else {
      var n := |blank| - 1;
      assert (s + blank)[..|s| + n] == s + blank[..n];
      TrimRightBlank(s, blank[..n]);
    }
  }

  lemma {:induction false} TrimLeftBlank(blank: string, s: string)
    requires s != [] && !IsSpace(s[0]) && Blank(blank)
    ensures TrimLeft(blank + s) == s
    decreases |blank|
  {
    if blank == [] {
      assert blank + s == s;
    } else {
      assert (blank + s)[1..] == blank[1..] + s;
      TrimLeftBlank(blank[1..], s);
    }
  }

  /** A printed number is read back, with or without a plus sign and whatever white space is around it. */
  lemma {:induction false} ReadSpelled(before: string, plus: bool, n: nat, after: string)
    requires Blank(before) && Blank(after)
    ensures ReadNumber(before + ((if plus then "+" else "") + Show(n)) + after) == Ok(n)
  {
    var number := (if plus then "+" else "") + Show(n);
    ShowDigits(n);
    assert Show(n)[0] in Show(n) && Show(n)[|Show(n)| - 1] in Show(n);
    assert number[|number| - 1] == Show(n)[|Show(n)| - 1];
    assert (before + number)[|before + number| - 1] == number[|number| - 1];
    TrimRightBlank(before + number, after);
    TrimLeftBlank(before, number);
    assert Unsigned(number) == Show(n);
    ReadDigitsShow(n);
  }

  lemma ReadShow(n: nat)
    ensures ReadNumber(Show(n)) == Ok(n)
  {
    var s := Show(n);
    ShowDigits(n);
    assert s[0] in s && s[|s| - 1] in s;
    assert TrimLeft(TrimRight(s)) == s && Unsigned(s) == s;
    ReadDigitsShow(n);
  }

  /** All or nothing. */
  function Collect<T>(rs: seq<Result<T>>): Result<seq<T>> {
    if forall i :: 0 <= i < |rs| ==> rs[i].Ok? then Ok(seq(|rs|, i requires 0 <= i < |rs| => rs[i].value)) else Err
  }

  lemma CollectOk<T>(rs: seq<Result<T>>, values: seq<T>)
    requires |rs| == |values| && forall i :: 0 <= i < |rs| ==> rs[i] == Ok(values[i])
    ensures Collect(rs) == Ok(values)
  {
    assert Collect(rs).Ok? && |Collect(rs).value| == |values|;
    assert Collect(rs).value == values;
  }

  function Each<S, T>(f: S -> T, s: seq<S>): (r: seq<T>)
    ensures |r| == |s| && forall i :: 0 <= i < |s| ==> r[i] == f(s[i])
  {
    seq(|s|, i requires 0 <= i < |s| => f(s[i]))
  }

  // ---- Reading ----

  /** `range(from, to + 1)`. */
  function Inclusive(from: nat, to: nat): (r: Cores)
    ensures |r| == if from <= to then to - from + 1 else 0
    ensures forall i :: 0 <= i < |r| ==> r[i] == from + i
  {
    seq(if from <= to then to - from + 1 else 0, i requires 0 <= i => from + i)
  }

  function ReadSet(s: string): Result<Cores> {
    var bounds := Collect(Each(ReadNumber, Split(s, '-')));
    if bounds.Err? || bounds.value == [] then Err else Ok(Inclusive(bounds.value[0], bounds.value[|bounds.value| - 1]))
  }

  function ReadAllocation(s: string): Result<seq<Cores>> {
    Collect(Each(ReadSet, Split(s, ',')))
  }

  function ReadAll(s: string): Result<seq<seq<Cores>>> {
    Collect(Each(ReadAllocation, Split(s, ':')))
  }

  /** `parse_num_range`. */
  method ParseNumRange(coreList: string) returns (r: Result<seq<seq<Cores>>>)
    ensures r == ReadAll(coreList)
  {
    var items := Split(coreList, ':');
    var ret: seq<seq<Cores>> := [];
    for i := 0 to |items|
      invariant |ret| == i && forall j :: 0 <= j < i ==> ReadAllocation(items[j]) == Ok(ret[j])
    {
      var one := ReadAllocation(items[i]);
      if one.Err? {
        assert Each(ReadAllocation, items)[i].Err?;
        return Err;
      }
      ret := ret + [one.value];
    }
    CollectOk(Each(ReadAllocation, items), ret);
    r := Ok(ret);
  }

  // ---- Printing ----

  ghost predicate Printable(allocation: seq<Cores>) {
    allocation != [] && AllNonempty(allocation)
  }

  function ShowSet(set_: Cores): (s: string) {
    if set_ == [] then ""
    else if |set_| == 1 then Show(set_[0])
    else Show(set_[0]) + "-" + Show(set_[|set_| - 1])
  }

  function ShowAllocation(allocation: seq<Cores>): string {
    Join(Each(ShowSet, allocation), ',')
  }

  function StripRight(s: string, c: char): string {
    if s != [] && s[|s| - 1] == c then StripRight(s[..|s| - 1], c) else s
  }

  function StripLeft(s: string, c: char): string {
    if s != [] && s[0] == c then StripLeft(s[1..], c) else s
  }

  function Strip(s: string, c: char): string {
    StripLeft(StripRight(s, c), c)
  }

  const PREFIX: string := "numactl --physcpubind "

  /** The text with every set appended, each followed by a comma. */
  function Numa(prefix: string, sets: seq<Cores>): string {
    if sets == [] then prefix else Numa(prefix, sets[..|sets| - 1]) + (ShowSet(sets[|sets| - 1]) + ",")
  }

  lemma {:induction false} JoinAppend(pieces: seq<string>, x: string, sep: char)
    requires pieces != []
    ensures Join(pieces + [x], sep) == Join(pieces, sep) + [sep] + x
  {
    if |pieces| == 1 {
      assert (pieces + [x])[1..] == [x];
    } else {
      JoinAppend(pieces[1..], x, sep);
      assert (pieces + [x])[1..] == pieces[1..] + [x];
    }
  }

  lemma EachAppend<S, T>(f: S -> T, s: seq<S>, x: S)
    ensures Each(f, s + [x]) == Each(f, s) + [f(x)]
  {
  }

  lemma ShowAppend(sets: seq<Cores>, x: Cores)
    requires sets != []
    ensures ShowAllocation(sets + [x]) == ShowAllocation(sets) + "," + ShowSet(x)
  {
    EachAppend(ShowSet, sets, x);
    JoinAppend(Each(ShowSet, sets), ShowSet(x), ',');
  }

  lemma Regroup(prefix: string, text: string, x: string)
    ensures prefix + text + "," + (x + ",") == prefix + (text + "," + x) + ","
  {
  }

  lemma NumaAppend(prefix: string, sets: seq<Cores>, x: Cores)
    ensures Numa(prefix, sets + [x]) == Numa(prefix, sets) + (ShowSet(x) + ",")
  {
    assert (sets + [x])[..|sets|] == sets;
  }

  lemma NumaOne(prefix: string, x: Cores)
    ensures Numa(prefix, [x]) == prefix + ShowAllocation([x]) + ","
  {
    assert [x][..0] == [];
    assert Each(ShowSet, [x]) == [ShowSet(x)];
  }

  lemma {:induction false} NumaIsJoin(prefix: string, sets: seq<Cores>)
    requires sets != []
    ensures Numa(prefix, sets) == prefix + ShowAllocation(sets) + ","
  {
    var n := |sets| - 1;
    var before, x := sets[..n], sets[n];
    assert sets == before + [x];
    if n > 0 {
      NumaIsJoin(prefix, before);
      NumaAppend(prefix, before, x);
      ShowAppend(before, x);
      Regroup(prefix, ShowAllocation(before), ShowSet(x));
    } else {
      NumaOne(prefix, x);
    }
  }

  lemma JoinEnds(pieces: seq<string>)
    requires pieces != [] && pieces[|pieces| - 1] != [] && ',' !in pieces[|pieces| - 1]
    ensures var s := Join(pieces, ','); s != [] && s[|s| - 1] != ','
  {
    var n := |pieces| - 1;
    if n > 0 {
      assert pieces == pieces[..n] + [pieces[n]];
      JoinAppend(pieces[..n], pieces[n], ',');
    }
    assert pieces[n][|pieces[n]| - 1] in pieces[n];
  }

  lemma StripComma(s: string)
    requires s != [] && s[0] != ',' && s[|s| - 1] != ','
    ensures Strip(s + ",", ',') == s
  {
    assert (s + ",")[..|s|] == s && (s + ",")[|s|] == ',';
    assert StripRight(s + ",", ',') == StripRight(s, ',');
  }

  /** A printed set contains no separator but the dash, so it is not cut by commas or colons. */
  lemma ShowSetFree(set_: Cores)
    requires set_ != []
    ensures ShowSet(set_) != [] && Free(ShowSet(set_), ',') && Free(ShowSet(set_), ':')
  {
    ShowDigits(set_[0]);
    ShowDigits(set_[|set_| - 1]);
  }

  method PrintSet(cpuSet: Cores) returns (s: string)
    requires cpuSet != []
    ensures s == ShowSet(cpuSet) + ","
  {
    if |cpuSet| == 1 {
      s := Show(cpuSet[0]) + ",";
    } else {
      s := Show(cpuSet[0]) + "-" + Show(cpuSet[|cpuSet| - 1]) + ",";
    }
  }

  /** Appends the sets of an allocation to a text, each followed by a comma, and strips commas. An empty
      set has no first core: an error. */
  method PrintAfter(prefix: string, allocation: seq<Cores>) returns (r: Result<string>)
    requires prefix != [] && prefix[0] != ',' && allocation != []
    ensures r.Ok? <==> AllNonempty(allocation)
    ensures r.Ok? ==> r.value == prefix + ShowAllocation(allocation) + " "
  {
    var numa := prefix;
    ghost var done: seq<Cores> := [];
    for i := 0 to |allocation|
      invariant done == allocation[..i] && AllNonempty(done)
      invariant numa == Numa(prefix, done)
    {
      if allocation[i] == [] {
        return Err;
      }
      var piece := PrintSet(allocation[i]);
      NumaAppend(prefix, done, allocation[i]);
      numa := numa + piece;
      done := done + [allocation[i]];
    }
    assert done == allocation;
    Stripped(prefix, allocation);
    r := Ok(Strip(numa, ',') + " ");
  }

  /** The text put before the command of a worker. */
  method PrintAllocation(allocation: seq<Cores>) returns (r: Result<string>)
    requires allocation != []
    ensures r.Ok? <==> AllNonempty(allocation)
    ensures r.Ok? ==> r.value == PREFIX + ShowAllocation(allocation) + " "
  {
    r := PrintAfter(PREFIX, allocation);
  }

  lemma Stripped(prefix: string, allocation: seq<Cores>)
    requires prefix != [] && prefix[0] != ',' && Printable(allocation)
    ensures Strip(Numa(prefix, allocation), ',') == prefix + ShowAllocation(allocation)
  {
    ShowSetFree(allocation[|allocation| - 1]);
    NumaIsJoin(prefix, allocation);
    JoinEnds(Each(ShowSet, allocation));
    StripComma(prefix + ShowAllocation(allocation));
  }

  // ---- Printing and reading back ----

  /** What reading makes of a printed set: everything from its first to its last core. */
  function Spread(set_: Cores): Cores
    requires set_ != []
  {
    Inclusive(set_[0], set_[|set_| - 1])
  }

  /** Reading gives a set back exactly when its ids are consecutive. */
  lemma SpreadIff(set_: Cores)
    requires set_ != []
    ensures Spread(set_) == set_ <==> Consecutive(set_)
  {
    if Consecutive(set_) {
      ConsecutiveAt(set_, |set_| - 1);
      forall i | 0 <= i < |set_|
        ensures set_[i] == Spread(set_)[i]
      {
        ConsecutiveAt(set_, i);
      }
    } else {
      var i :| 0 < i < |set_| && set_[i] != set_[i - 1] + 1;
      assert |Spread(set_)| == |set_| ==> Spread(set_)[i] == Spread(set_)[i - 1] + 1;
    }
  }

  lemma {:induction false} ConsecutiveAt(run: Cores, i: nat)
    requires Consecutive(run) && i < |run|
    ensures run[i] == run[0] + i
  {
    if i > 0 {
      ConsecutiveAt(run, i - 1);
    }
  }

  lemma NumbersRead(numbers: seq<nat>)
    ensures Collect(Each(ReadNumber, Each(Show, numbers))) == Ok(numbers)
  {
    forall i | 0 <= i < |numbers|
      ensures ReadNumber(Show(numbers[i])) == Ok(numbers[i])
    {
      ReadShow(numbers[i]);
    }
    CollectOk(Each(ReadNumber, Each(Show, numbers)), numbers);
  }

  /** Numbers joined by dashes are read as everything from the first to the last. */
  lemma ReadRange(numbers: seq<nat>)
    requires numbers != []
    ensures ReadSet(Join(Each(Show, numbers), '-')) == Ok(Inclusive(numbers[0], numbers[|numbers| - 1]))
  {
    var pieces := Each(Show, numbers);
    forall i | 0 <= i < |pieces|
      ensures Free(pieces[i], '-')
    {
      ShowDigits(numbers[i]);
    }
    SplitJoin(pieces, '-');
    NumbersRead(numbers);
  }

  lemma ReadShownSet(set_: Cores)
    requires set_ != []
    ensures ReadSet(ShowSet(set_)) == Ok(Spread(set_))
  {
    var first, last := set_[0], set_[|set_| - 1];
    var numbers := if |set_| == 1 then [first] else [first, last];
    var pieces := Each(Show, numbers);
    assert |set_| > 1 ==> pieces[1..] == [Show(last)];
    assert ShowSet(set_) == Join(pieces, '-');
    ReadRange(numbers);
  }

  function SpreadAll(allocation: seq<Cores>): (r: seq<Cores>)
    requires AllNonempty(allocation)
    ensures |r| == |allocation| && forall i :: 0 <= i < |r| ==> r[i] == Spread(allocation[i])
  {
    seq(|allocation|, i requires 0 <= i < |allocation| => Spread(allocation[i]))
  }

  lemma ReadShownAllocation(allocation: seq<Cores>)
    requires Printable(allocation)
    ensures ReadAllocation(ShowAllocation(allocation)) == Ok(SpreadAll(allocation))
  {
    var pieces := Each(ShowSet, allocation);
    forall i | 0 <= i < |allocation|
      ensures Free(pieces[i], ',') && ReadSet(pieces[i]) == Ok(Spread(allocation[i]))
    {
      ShowSetFree(allocation[i]);
      ReadShownSet(allocation[i]);
    }
    SplitJoin(pieces, ',');
    CollectOk(Each(ReadSet, pieces), SpreadAll(allocation));
  }

  lemma {:induction false} JoinFree(pieces: seq<string>, sep: char, c: char)
    requires AllFree(pieces, c) && c != sep
    ensures Free(Join(pieces, sep), c)
  {
    if |pieces| > 1 {
      JoinFree(pieces[1..], sep, c);
    }
  }

  ghost predicate AllPrintable(allocations: seq<seq<Cores>>) {
    allocations != [] && forall i :: 0 <= i < |allocations| ==> Printable(allocations[i])
  }

  function SpreadEvery(allocations: seq<seq<Cores>>): (r: seq<seq<Cores>>)
    requires forall i :: 0 <= i < |allocations| ==> AllNonempty(allocations[i])
    ensures |r| == |allocations| && forall i :: 0 <= i < |r| ==> r[i] == SpreadAll(allocations[i])
  {
    seq(|allocations|, i requires 0 <= i < |allocations| => SpreadAll(allocations[i]))
  }

  /** Printed allocations joined by colons are read back as their spreads. */
  lemma {:induction false} ReadShownList(allocations: seq<seq<Cores>>)
    requires AllPrintable(allocations)
    ensures ReadAll(Join(Each(ShowAllocation, allocations), ':')) == Ok(SpreadEvery(allocations))
  {
    var items := Each(ShowAllocation, allocations);
    forall i | 0 <= i < |allocations|
      ensures Free(items[i], ':') && ReadAllocation(items[i]) == Ok(SpreadAll(allocations[i]))
    {
      var pieces := Each(ShowSet, allocations[i]);
      forall j | 0 <= j < |pieces|
        ensures Free(pieces[j], ':')
      {
        ShowSetFree(allocations[i][j]);
      }
      JoinFree(pieces, ',', ':');
      ReadShownAllocation(allocations[i]);
    }
    SplitJoin(items, ':');
    CollectOk(Each(ReadAllocation, items), SpreadEvery(allocations));
  }

  ghost predicate AllConsecutive(allocation: seq<Cores>) {
    forall j :: 0 <= j < |allocation| ==> Consecutive(allocation[j])
  }

  lemma SpreadAllIff(allocation: seq<Cores>)
    requires AllNonempty(allocation)
    ensures SpreadAll(allocation) == allocation <==> AllConsecutive(allocation)
  {
    forall j | 0 <= j < |allocation|
      ensures Spread(allocation[j]) == allocation[j] <==> Consecutive(allocation[j])
    {
      SpreadIff(allocation[j]);
    }
    if SpreadAll(allocation) == allocation {
      forall j | 0 <= j < |allocation|
        ensures Consecutive(allocation[j])
      {
        assert SpreadAll(allocation)[j] == allocation[j];
      }
    }
  }

  lemma SpreadEveryIff(allocations: seq<seq<Cores>>)
    requires forall i :: 0 <= i < |allocations| ==> AllNonempty(allocations[i])
    ensures SpreadEvery(allocations) == allocations <==> forall i :: 0 <= i < |allocations| ==> AllConsecutive(allocations[i])
  {
    forall i | 0 <= i < |allocations|
      ensures SpreadEvery(allocations)[i] == allocations[i] <==> AllConsecutive(allocations[i])
    {
      SpreadAllIff(allocations[i]);
    }
  }

  /** Printing a list of allocations and parsing it gives the list back exactly when every set is a run
      of consecutive ids. */
  lemma {:induction false} RoundTripIff(allocations: seq<seq<Cores>>)
    requires AllPrintable(allocations)
    ensures ReadAll(Join(Each(ShowAllocation, allocations), ':')) == Ok(allocations)
       <==> forall i :: 0 <= i < |allocations| ==> AllConsecutive(allocations[i])
  {
    ReadShownList(allocations);
    SpreadEveryIff(allocations);
  }

  lemma SiblingsConsecutive(run: Cores, cpuNum: nat)
    requires Consecutive(run)
    ensures Consecutive(Siblings(run, cpuNum))
  {
  }

  lemma GrantPrintable(cores: Cores, cpuNum: nat, mt: bool)
    requires cores != []
    ensures Printable(Grant(cores, cpuNum, mt)) && AllConsecutive(Grant(cores, cpuNum, mt))
  {
    var runs := Runs(cores, |cores|);
    RunsMaximal(cores, |cores|);
    LastRun(cores, |cores|);
    SiblingsConsecutive(runs[|runs| - 1], cpuNum);
  }

  /** Every allocation the launcher makes survives the round trip. */
  lemma {:induction false} GrantRoundTrip(cores: Cores, cpuNum: nat, mt: bool)
    requires cores != []
    ensures ReadAll(ShowAllocation(Grant(cores, cpuNum, mt))) == Ok([Grant(cores, cpuNum, mt)])
  {
    var one := [Grant(cores, cpuNum, mt)];
    GrantPrintable(cores, cpuNum, mt);
    RoundTripIff(one);
    assert Each(ShowAllocation, one) == [ShowAllocation(one[0])];
  }

  lemma JoinTwo(a: string, b: string, sep: char)
    ensures Join([a, b], sep) == a + [sep] + b
  {
    assert [a, b][1..] == [b];
  }

  lemma JoinFour(a: string, b: string, c: string, d: string, sep: char)
    ensures Join([a, b, c, d], sep) == a + [sep] + (b + [sep] + (c + [sep] + d))
  {
    assert [a, b, c, d][1..] == [b, c, d] && [b, c, d][1..] == [c, d];
    JoinTwo(c, d, sep);
    assert Join([b, c, d], sep) == b + [sep] + Join([c, d], sep);
  }

  lemma ShowTwoDigits(a: nat, b: nat)
    requires 0 < a < 10 && b < 10
    ensures Show(10 * a + b) == [Digit(a), Digit(b)]
  {
    assert (10 * a + b) / 10 == a && (10 * a + b) % 10 == b;
  }

  lemma ExampleSets()
    ensures ShowSet([1]) == "1" && ShowSet([4, 5]) == "4-5" && ShowSet([7, 8, 9, 10, 11]) == "7-11" && ShowSet([12]) == "12"
    ensures ShowSet([20, 21, 22, 23, 24, 25]) == "20-25"
  {
    ShowTwoDigits(1, 1);
    ShowTwoDigits(1, 2);
    ShowTwoDigits(2, 0);
    ShowTwoDigits(2, 5);
  }

  lemma EachFour(a: Cores, b: Cores, c: Cores, d: Cores)
    ensures ShowAllocation([a, b, c, d]) == ShowSet(a) + "," + (ShowSet(b) + "," + (ShowSet(c) + "," + ShowSet(d)))
  {
    assert Each(ShowSet, [a, b, c, d]) == [ShowSet(a), ShowSet(b), ShowSet(c), ShowSet(d)];
    JoinFour(ShowSet(a), ShowSet(b), ShowSet(c), ShowSet(d), ',');
  }

  lemma ShowPair(a: seq<Cores>, b: Cores)
    ensures Join(Each(ShowAllocation, [a, [b]]), ':') == ShowAllocation(a) + ":" + ShowSet(b)
  {
    assert Each(ShowSet, [b]) == [ShowSet(b)];
    assert Each(ShowAllocation, [a, [b]]) == [ShowAllocation(a), ShowAllocation([b])];
    JoinTwo(ShowAllocation(a), ShowAllocation([b]), ':');
  }

  lemma ExampleConsecutive(first: seq<Cores>, second: seq<Cores>)
    requires first == [[1], [4, 5], [7, 8, 9, 10, 11], [12]] && second == [[20, 21, 22, 23, 24, 25]]
    ensures AllPrintable([first, second]) && AllConsecutive(first) && AllConsecutive(second)
  {
    assert Printable(first) && Printable(second);
  }

  lemma ExampleText(first: seq<Cores>, second: seq<Cores>)
    requires first == [[1], [4, 5], [7, 8, 9, 10, 11], [12]] && second == [[20, 21, 22, 23, 24, 25]]
    ensures ShowAllocation(first) == "1,4-5,7-11,12"
    ensures Join(Each(ShowAllocation, [first, second]), ':') == "1,4-5,7-11,12:20-25"
  {
    ExampleSets();
    EachFour([1], [4, 5], [7, 8, 9, 10, 11], [12]);
    ShowPair(first, second[0]);
  }

  /** The documented example: two workers, the first with a core of its own, two runs and another core. */
  lemma DocumentedExample()
    ensures ShowAllocation([[1], [4, 5], [7, 8, 9, 10, 11], [12]]) == "1,4-5,7-11,12"
    ensures ReadAll("1,4-5,7-11,12:20-25") == Ok([[[1], [4, 5], [7, 8, 9, 10, 11], [12]], [[20, 21, 22, 23, 24, 25]]])
  {
    var first: seq<Cores>, second: seq<Cores> := [[1], [4, 5], [7, 8, 9, 10, 11], [12]], [[20, 21, 22, 23, 24, 25]];
    ExampleText(first, second);
    ExampleConsecutive(first, second);
    RoundTripIff([first, second]);
  }
}
