/** The IDA plugin that applies a signature file to a database: for each
    (name, pattern) pair it finds every occurrence of the pattern in the
    loaded image, keeps the hits that are the first byte of a function, and
    gives each such function the name, made unique against the names
    already in the database. */
module SigMatcher {
  import opened Common
  import opened Decimal
  import opened Pattern

  // ---------------------------------------------------------------------
  // Name allocation (`rename_function`)
  // ---------------------------------------------------------------------

  /** The `k`-th name tried for `base`: `base` itself, then `base_1`,
      `base_2`, ... */
  function Candidate(base: string, k: nat): string {
    if k == 0 then base else base + "_" + NatToDec(k)
  }

  /** Different probes give different names, so the probing loop never
      revisits a name. */
  lemma CandidateInjective(base: string, j: nat, k: nat)
    ensures Candidate(base, j) == Candidate(base, k) <==> j == k
  {
    if j != 0 && k != 0 && Candidate(base, j) == Candidate(base, k) {
      var p := |base| + 1;
      assert Candidate(base, j)[p..] == NatToDec(j);
      assert Candidate(base, k)[p..] == NatToDec(k);
      NatToDecInjective(j, k);
    } else if (j == 0) != (k == 0) {
      assert |Candidate(base, j)| != |Candidate(base, k)|;
    }
  }

  /** The first `n` probes, as a set. */
  function Probes(base: string, n: nat): set<string> {
    if n == 0 then {} else Probes(base, n - 1) + {Candidate(base, n - 1)}
  }

  lemma {:induction false} ProbesSize(base: string, n: nat)
    ensures |Probes(base, n)| == n
  {
    if n > 0 {
      ProbesSize(base, n - 1);
      ProbesExclude(base, n - 1, n - 1);
    }
  }

  /** A later probe is not among the earlier ones. */
  lemma {:induction false} ProbesExclude(base: string, n: nat, m: nat)
    requires n <= m
    ensures Candidate(base, m) !in Probes(base, n)
  {
    if n > 0 {
      ProbesExclude(base, n - 1, m);
      CandidateInjective(base, m, n - 1);
    }
  }

  lemma {:induction false} ProbesOnly(base: string, n: nat, c: string)
    requires c in Probes(base, n)
    ensures exists k :: 0 <= k < n && Candidate(base, k) == c
  {
    if c != Candidate(base, n - 1) {
      ProbesOnly(base, n - 1, c);
    } else {
      assert Candidate(base, n - 1) == c;
    }
  }

  /** A name set holding the first `n` probes has at least `n` names, so
      the probing stops after at most `|names| + 1` tries. */
  lemma TakenBound(base: string, names: set<string>, n: nat)
    requires forall k :: 0 <= k < n ==> Candidate(base, k) in names
    ensures n <= |names|
  {
    var p := Probes(base, n);
    ProbesSize(base, n);
    forall c | c in p
      ensures c in names
    {
      ProbesOnly(base, n, c);
    }
    assert names == p + (names - p);
  }

  /** The number of the first probe not in `names`, searching from `i`. */
  function FirstFree(base: string, names: set<string>, i: nat): (r: nat)
    requires forall k :: 0 <= k < i ==> Candidate(base, k) in names
    ensures i <= r
    ensures Candidate(base, r) !in names
    ensures forall k :: 0 <= k < r ==> Candidate(base, k) in names
    decreases |names| - i
  {
    if Candidate(base, i) !in names then i
    else
      TakenBound(base, names, i + 1);
      FirstFree(base, names, i + 1)
  }

  /** The suffix `rename_function` settles on (0 meaning no suffix). */
  function FreeSuffix(base: string, names: set<string>): nat {
    FirstFree(base, names, 0)
  }

  /** The name `rename_function` tries to apply. */
  function FreeName(base: string, names: set<string>): (n: string)
    ensures n !in names
  {
    Candidate(base, FreeSuffix(base, names))
  }

  /** The chosen name is free, is `base` when `base` is free, and otherwise
      is `base_i` for the smallest `i >= 1` whose name is free. */
  lemma FreeNameChoice(base: string, names: set<string>)
    ensures FreeName(base, names) !in names
    ensures base !in names ==> FreeName(base, names) == base
    ensures base in names ==>
      var i := FreeSuffix(base, names);
      && 1 <= i
      && FreeName(base, names) == base + "_" + NatToDec(i)
      && forall k :: 1 <= k < i ==> base + "_" + NatToDec(k) in names
  {
    var i := FreeSuffix(base, names);
    if base in names {
      assert Candidate(base, 0) in names;
      forall k | 1 <= k < i
        ensures base + "_" + NatToDec(k) in names
      {
        assert Candidate(base, k) in names;
      }
    } else {
      assert i == 0 by { assert Candidate(base, 0) !in names; }
    }
  }

  /** The first free probe is the only probe that is free with every earlier
      probe taken. */
  lemma FreeSuffixUnique(base: string, names: set<string>, j: nat)
    requires Candidate(base, j) !in names
    requires forall k :: 0 <= k < j ==> Candidate(base, k) in names
    ensures FreeSuffix(base, names) == j
  {
  }

  /** With `foo` and `foo_1` taken, the name chosen for `foo` is `foo_2`. */
  lemma FreeNameExample()
    ensures FreeName("foo", {"foo", "foo_1"}) == "foo_2"
    ensures FreeName("Alpha", {"Alpha"}) == "Alpha_1"
  {
    assert NatToDec(1) == "1" && NatToDec(2) == "2";
    assert Candidate("foo", 1) == "foo_1" && Candidate("foo", 2) == "foo_2";
    assert Candidate("Alpha", 1) == "Alpha_1";
    FreeSuffixUnique("foo", {"foo", "foo_1"}, 2);
    FreeSuffixUnique("Alpha", {"Alpha"}, 1);
  }

  // ---------------------------------------------------------------------
  // The host, as the plugin sees it
  // ---------------------------------------------------------------------

  /** The database: the bytes of the address range `[minEa, MaxEa())`, the
      start of the function containing an address (`get_func`, None when
      no function contains it) and whether `set_name` succeeds. */
  datatype Host = Host(
    image: seq<Byte>,
    minEa: int,
    funcStart: int -> Option<int>,
    setName: (int, string) -> bool)
  {
    function MaxEa(): int {
      minEa + |image|
    }
  }

  /** One entry of the signature file: a function name and its pattern. */
  datatype Sig = Sig(name: string, pattern: seq<PatByte>)

  /** `find_bytes(pattern, cur, MaxEa())`: the lowest address at or after
      `cur`, below the end of the range, where the pattern matches (None for
      BADADDR). */
  function FindBytes(host: Host, pat: seq<PatByte>, cur: int): (r: Option<int>)
    requires host.minEa <= cur
    ensures r.Some? ==> cur <= r.value < host.MaxEa()
  {
    match FindFrom(host.image, pat, cur - host.minEa)
    case None => None
    case Some(k) => if k < |host.image| then Some(host.minEa + k) else None
  }

  /** The hit is a match, and no address between the cursor and the hit,
      nor any address of the range when there is no hit, is one. */
  lemma FindBytesLeast(host: Host, pat: seq<PatByte>, cur: int)
    requires host.minEa <= cur
    ensures var r := FindBytes(host, pat, cur);
      && (r.Some? ==> MatchesAt(host.image, pat, r.value - host.minEa))
      && (r.Some? ==> forall k: nat :: cur - host.minEa <= k < r.value - host.minEa ==> !MatchesAt(host.image, pat, k))
      && (r.None? ==> forall k: nat :: cur - host.minEa <= k < |host.image| ==> !MatchesAt(host.image, pat, k))
  {
  }

  // ---------------------------------------------------------------------
  // The scan, as functions of the scan state
  // ---------------------------------------------------------------------

  /** The scan state: `existing_names`, `renamed_functions_ea`,
      `renamed_count`, and the renames applied to the database so far, in
      order. */
  datatype State = State(names: set<string>, renamed: set<int>, count: nat, applied: seq<(int, string)>)

  /** The state `main` starts from. */
  function Initial(names: set<string>): State {
    State(names, {}, 0, [])
  }

  /** One hit at `ea` for the signature named `name`. */
  function Visit(st: State, host: Host, name: string, ea: int): State {
    if host.funcStart(ea) == Some(ea) && ea !in st.renamed then
      var n := FreeName(name, st.names);
      if host.setName(ea, n) then State(st.names + {n}, st.renamed + {ea}, st.count + 1, st.applied + [(ea, n)])
      else st
    else st
  }

  /** The inner loop for one signature, from cursor `cur`. */
  function SearchFrom(st: State, host: Host, s: Sig, cur: int): State
    requires host.minEa <= cur
    decreases host.MaxEa() - cur
  {
    if cur >= host.MaxEa() then st
    else
      match FindBytes(host, s.pattern, cur)
      case None => st
      case Some(ea) => SearchFrom(Visit(st, host, s.name, ea), host, s, ea + 1)
  }

  /** One turn of the inner loop. */
  lemma SearchStep(st: State, host: Host, s: Sig, cur: int)
    requires host.minEa <= cur < host.MaxEa()
    ensures var f := FindBytes(host, s.pattern, cur);
      && (f.None? ==> SearchFrom(st, host, s, cur) == st)
      && (f.Some? ==> SearchFrom(st, host, s, cur) == SearchFrom(Visit(st, host, s.name, f.value), host, s, f.value + 1))
  {
  }

  /** The outer loop from signature `i`; `cancelled(i)` is what
      `user_cancelled` answers when polled before signature `i`. */
  function ScanFrom(st: State, host: Host, sigs: seq<Sig>, cancelled: nat -> bool, i: nat): State
    requires i <= |sigs|
    decreases |sigs| - i
  {
    if i == |sigs| then st
    else if i % 100 == 0 && cancelled(i) then st
    else ScanFrom(SearchFrom(st, host, sigs[i], host.minEa), host, sigs, cancelled, i + 1)
  }

  // ---------------------------------------------------------------------
  // Properties of the scan
  // ---------------------------------------------------------------------

  /** A hit is renamed exactly when a function starts there, the address
      was not renamed before and `set_name` accepts the free name; a hit
      that is not renamed changes nothing. */
  lemma VisitRenames(st: State, host: Host, name: string, ea: int)
    ensures |Visit(st, host, name, ea).applied| == |st.applied| + 1 <==>
      host.funcStart(ea) == Some(ea) && ea !in st.renamed && host.setName(ea, FreeName(name, st.names))
    ensures Visit(st, host, name, ea) == st || Visit(st, host, name, ea).applied == st.applied + [(ea, FreeName(name, st.names))]
  {
  }

  /** The addresses of a list of renames. */
  function Addrs(applied: seq<(int, string)>): set<int> {
    if |applied| == 0 then {} else Addrs(applied[..|applied| - 1]) + {applied[|applied| - 1].0}
  }

  /** The names of a list of renames. */
  function NamesOf(applied: seq<(int, string)>): set<string> {
    if |applied| == 0 then {} else NamesOf(applied[..|applied| - 1]) + {applied[|applied| - 1].1}
  }

  lemma {:induction false} AddrsHas(applied: seq<(int, string)>, i: nat)
    requires i < |applied|
    ensures applied[i].0 in Addrs(applied) && applied[i].1 in NamesOf(applied)
  {
    if i < |applied| - 1 {
      AddrsHas(applied[..|applied| - 1], i);
    }
  }

  /** An address is among those of a list of renames exactly when some
      rename is at it. */
  lemma {:induction false} AddrsOnly(applied: seq<(int, string)>, x: int)
    ensures x in Addrs(applied) <==> exists i :: 0 <= i < |applied| && applied[i].0 == x
  {
    if |applied| > 0 {
      var init := applied[..|applied| - 1];
      AddrsOnly(init, x);
      if x in Addrs(init) {
        var i :| 0 <= i < |init| && init[i].0 == x;
        assert applied[i].0 == x;
      }
      if exists i :: 0 <= i < |applied| && applied[i].0 == x {
        var i :| 0 <= i < |applied| && applied[i].0 == x;
        if i < |init| {
          assert init[i].0 == x;
        }
      }
    }
  }

  /** Renames at distinct addresses cover as many addresses as there are
      renames. */
  lemma {:induction false} AddrsCard(applied: seq<(int, string)>)
    requires forall i, j :: 0 <= i < j < |applied| ==> applied[i].0 != applied[j].0
    ensures |Addrs(applied)| == |applied|
  {
    if |applied| > 0 {
      var init, last := applied[..|applied| - 1], applied[|applied| - 1];
      AddrsCard(init);
      AddrsOnly(init, last.0);
      forall i | 0 <= i < |init|
        ensures init[i].0 != last.0
      {
        assert init[i] == applied[i];
      }
    }
  }

  /** The state is what a run from `names0` leaves: the counter counts the
      renames, no address and no name is used twice, every applied name was
      new to the database, and the two sets are the start sets plus what the
      renames added. */
  ghost predicate Consistent(names0: set<string>, st: State) {
    && st.count == |st.applied|
    && st.renamed == Addrs(st.applied)
    && st.names == names0 + NamesOf(st.applied)
    && (forall i, j :: 0 <= i < j < |st.applied| ==> st.applied[i].0 != st.applied[j].0)
    && (forall i, j :: 0 <= i < j < |st.applied| ==> st.applied[i].1 != st.applied[j].1)
    && (forall i :: 0 <= i < |st.applied| ==> st.applied[i].1 !in names0)
  }

  lemma VisitConsistent(names0: set<string>, st: State, host: Host, name: string, ea: int)
    requires Consistent(names0, st)
    ensures Consistent(names0, Visit(st, host, name, ea))
  {
    var st' := Visit(st, host, name, ea);
    if st' != st {
      var n := FreeName(name, st.names);
      FreeNameChoice(name, st.names);
      var a := st'.applied;
      assert a[..|a| - 1] == st.applied;
      forall i | 0 <= i < |st.applied|
        ensures st.applied[i].0 != ea && st.applied[i].1 != n
      {
        AddrsHas(st.applied, i);
      }
    }
  }

  /** No address has been renamed and no name applied before the scan. */
  lemma InitialConsistent(names0: set<string>)
    ensures Consistent(names0, Initial(names0))
  {
  }

  lemma {:induction false} SearchConsistent(names0: set<string>, st: State, host: Host, s: Sig, cur: int)
    requires host.minEa <= cur && Consistent(names0, st)
    ensures Consistent(names0, SearchFrom(st, host, s, cur))
    decreases host.MaxEa() - cur
  {
    if cur < host.MaxEa() {
      var f := FindBytes(host, s.pattern, cur);
      if f.Some? {
        VisitConsistent(names0, st, host, s.name, f.value);
        SearchConsistent(names0, Visit(st, host, s.name, f.value), host, s, f.value + 1);
      }
    }
  }

  lemma {:induction false} ScanConsistent(names0: set<string>, st: State, host: Host, sigs: seq<Sig>, cancelled: nat -> bool, i: nat)
    requires i <= |sigs| && Consistent(names0, st)
    ensures Consistent(names0, ScanFrom(st, host, sigs, cancelled, i))
    decreases |sigs| - i
  {
    if i < |sigs| && !(i % 100 == 0 && cancelled(i)) {
      SearchConsistent(names0, st, host, sigs[i], host.minEa);
      ScanConsistent(names0, SearchFrom(st, host, sigs[i], host.minEa), host, sigs, cancelled, i + 1);
    }
  }

  /** `renamed_count` ends equal to the number of renames applied, no
      address is renamed twice, and no applied name clashes with a name
      that existed before or with another applied name. */
  lemma RunConsistent(names0: set<string>, host: Host, sigs: seq<Sig>, cancelled: nat -> bool)
    ensures var r := ScanFrom(Initial(names0), host, sigs, cancelled, 0);
      && r.count == |r.applied|
      && r.count == |r.renamed|
      && r.renamed == Addrs(r.applied)
      && (forall i, j :: 0 <= i < j < |r.applied| ==> r.applied[i].0 != r.applied[j].0 && r.applied[i].1 != r.applied[j].1)
      && (forall i :: 0 <= i < |r.applied| ==> r.applied[i].1 !in names0)
  {
    InitialConsistent(names0);
    ScanConsistent(names0, Initial(names0), host, sigs, cancelled, 0);
    AddrsCard(ScanFrom(Initial(names0), host, sigs, cancelled, 0).applied);
  }

  /** Every rename in `applied` is at the start of a function inside the
      range, at an address where one of the signatures matches. */
  ghost predicate Justified(host: Host, sigs: seq<Sig>, applied: seq<(int, string)>) {
    forall i :: 0 <= i < |applied| ==>
      && host.minEa <= applied[i].0 < host.MaxEa()
      && host.funcStart(applied[i].0) == Some(applied[i].0)
      && exists j :: 0 <= j < |sigs| && MatchesAt(host.image, sigs[j].pattern, applied[i].0 - host.minEa)
  }

  /** A hit where signature `j` matches keeps the renames justified. */
  lemma VisitJustified(st: State, host: Host, sigs: seq<Sig>, j: nat, ea: int)
    requires j < |sigs| && host.minEa <= ea < host.MaxEa()
    requires MatchesAt(host.image, sigs[j].pattern, ea - host.minEa)
    requires Justified(host, sigs, st.applied)
    ensures Justified(host, sigs, Visit(st, host, sigs[j].name, ea).applied)
  {
    var a := Visit(st, host, sigs[j].name, ea).applied;
    if a != st.applied {
      forall i | 0 <= i < |a|
        ensures && host.minEa <= a[i].0 < host.MaxEa()
                && host.funcStart(a[i].0) == Some(a[i].0)
                && exists j' :: 0 <= j' < |sigs| && MatchesAt(host.image, sigs[j'].pattern, a[i].0 - host.minEa)
      {
        if i < |st.applied| {
          assert a[i] == st.applied[i];
        } else {
          assert a[i].0 == ea;
        }
      }
    }
  }

  lemma {:induction false} SearchJustified(st: State, host: Host, sigs: seq<Sig>, j: nat, cur: int)
    requires j < |sigs| && host.minEa <= cur && Justified(host, sigs, st.applied)
    ensures Justified(host, sigs, SearchFrom(st, host, sigs[j], cur).applied)
    decreases host.MaxEa() - cur
  {
    if cur < host.MaxEa() {
      var f := FindBytes(host, sigs[j].pattern, cur);
      if f.Some? {
        FindBytesLeast(host, sigs[j].pattern, cur);
        VisitJustified(st, host, sigs, j, f.value);
        SearchJustified(Visit(st, host, sigs[j].name, f.value), host, sigs, j, f.value + 1);
      }
    }
  }

  lemma {:induction false} ScanJustified(st: State, host: Host, sigs: seq<Sig>, cancelled: nat -> bool, i: nat)
    requires i <= |sigs| && Justified(host, sigs, st.applied)
    ensures Justified(host, sigs, ScanFrom(st, host, sigs, cancelled, i).applied)
    decreases |sigs| - i
  {
    if i < |sigs| && !(i % 100 == 0 && cancelled(i)) {
      SearchJustified(st, host, sigs, i, host.minEa);
      ScanJustified(SearchFrom(st, host, sigs[i], host.minEa), host, sigs, cancelled, i + 1);
    }
  }

  /** A run only ever renames function starts where a signature matches. */
  lemma RunJustified(names0: set<string>, host: Host, sigs: seq<Sig>, cancelled: nat -> bool)
    ensures Justified(host, sigs, ScanFrom(Initial(names0), host, sigs, cancelled, 0).applied)
  {
    ScanJustified(Initial(names0), host, sigs, cancelled, 0);
  }

  /** `st'` is `st` with more renames: the renames applied so far are a
      prefix of those of `st'`, and no address leaves the renamed set. */
  ghost predicate Extends(st: State, st': State) {
    st.applied <= st'.applied && st.renamed <= st'.renamed
  }

  /** The inner loop only adds renames. */
  lemma {:induction false} SearchExtends(st: State, host: Host, s: Sig, cur: int)
    requires host.minEa <= cur
    ensures Extends(st, SearchFrom(st, host, s, cur))
    decreases host.MaxEa() - cur
  {
    if cur < host.MaxEa() {
      var f := FindBytes(host, s.pattern, cur);
      if f.Some? {
        var st' := Visit(st, host, s.name, f.value);
        SearchExtends(st', host, s, f.value + 1);
      }
    }
  }

  /** The outer loop only adds renames. */
  lemma {:induction false} ScanExtends(st: State, host: Host, sigs: seq<Sig>, cancelled: nat -> bool, i: nat)
    requires i <= |sigs|
    ensures Extends(st, ScanFrom(st, host, sigs, cancelled, i))
    decreases |sigs| - i
  {
    if i < |sigs| && !(i % 100 == 0 && cancelled(i)) {
      var st' := SearchFrom(st, host, sigs[i], host.minEa);
      SearchExtends(st, host, sigs[i], host.minEa);
      ScanExtends(st', host, sigs, cancelled, i + 1);
    }
  }

  /** A hit at a function start where `set_name` always succeeds leaves the
      address renamed, whether by this hit or an earlier one. */
  lemma VisitAtStart(st: State, host: Host, name: string, ea: int)
    requires host.funcStart(ea) == Some(ea)
    requires forall n :: host.setName(ea, n)
    ensures ea in Visit(st, host, name, ea).renamed
  {
  }

  /** A match at or after the cursor is found, at it or before it. */
  lemma FindBytesReaches(host: Host, pat: seq<PatByte>, cur: int, ea: int)
    requires host.minEa <= cur <= ea < host.MaxEa()
    requires MatchesAt(host.image, pat, ea - host.minEa)
    ensures FindBytes(host, pat, cur).Some? && FindBytes(host, pat, cur).value <= ea
  {
    FindBytesLeast(host, pat, cur);
  }

  /** The inner loop misses no function: an address at or after the cursor
      where the signature matches, which starts a function and where
      `set_name` succeeds, is renamed by the end of the loop. */
  lemma {:induction false} SearchComplete(st: State, host: Host, s: Sig, cur: int, ea: int)
    requires host.minEa <= cur <= ea < host.MaxEa()
    requires MatchesAt(host.image, s.pattern, ea - host.minEa)
    requires host.funcStart(ea) == Some(ea)
    requires forall n :: host.setName(ea, n)
    ensures ea in SearchFrom(st, host, s, cur).renamed
    decreases host.MaxEa() - cur
  {
    var f := FindBytes(host, s.pattern, cur);
    FindBytesReaches(host, s.pattern, cur, ea);
    var st' := Visit(st, host, s.name, f.value);
    SearchStep(st, host, s, cur);
    if f.value < ea {
      SearchComplete(st', host, s, f.value + 1, ea);
    } else {
      VisitAtStart(st, host, s.name, ea);
      SearchExtends(st', host, s, f.value + 1);
    }
  }

  /** The outer loop misses no function either: a function start matched
      by signature `j`, where `set_name` succeeds, is renamed when no poll
      from signature `i` up to `j` reports cancellation. */
  lemma {:induction false} ScanComplete(st: State, host: Host, sigs: seq<Sig>, cancelled: nat -> bool, i: nat, j: nat, ea: int)
    requires i <= j < |sigs|
    requires forall k: nat :: i <= k <= j && k % 100 == 0 ==> !cancelled(k)
    requires host.minEa <= ea < host.MaxEa()
    requires MatchesAt(host.image, sigs[j].pattern, ea - host.minEa)
    requires host.funcStart(ea) == Some(ea)
    requires forall n :: host.setName(ea, n)
    ensures ea in ScanFrom(st, host, sigs, cancelled, i).renamed
    decreases j - i
  {
    var st' := SearchFrom(st, host, sigs[i], host.minEa);
    if i == j {
      SearchComplete(st, host, sigs[i], host.minEa, ea);
      ScanExtends(st', host, sigs, cancelled, i + 1);
    } else {
      ScanComplete(st', host, sigs, cancelled, i + 1, j, ea);
    }
  }

  /** A run renames every function start that a signature scanned before
      the first poll reporting cancellation matches, wherever `set_name`
      succeeds. */
  lemma RunComplete(names0: set<string>, host: Host, sigs: seq<Sig>, cancelled: nat -> bool, j: nat, ea: int)
    requires j < |sigs|
    requires forall k: nat :: k <= j && k % 100 == 0 ==> !cancelled(k)
    requires host.minEa <= ea < host.MaxEa()
    requires MatchesAt(host.image, sigs[j].pattern, ea - host.minEa)
    requires host.funcStart(ea) == Some(ea)
    requires forall n :: host.setName(ea, n)
    ensures ea in ScanFrom(Initial(names0), host, sigs, cancelled, 0).renamed
  {
    ScanComplete(Initial(names0), host, sigs, cancelled, 0, j, ea);
  }

  /** Only the answers to the polls at multiples of 100 matter. */
  lemma {:induction false} PollsAtHundreds(st: State, host: Host, sigs: seq<Sig>, c1: nat -> bool, c2: nat -> bool, i: nat)
    requires i <= |sigs|
    requires forall k: nat :: k % 100 == 0 ==> c1(k) == c2(k)
    ensures ScanFrom(st, host, sigs, c1, i) == ScanFrom(st, host, sigs, c2, i)
    decreases |sigs| - i
  {
    if i < |sigs| && !(i % 100 == 0 && c1(i)) {
      PollsAtHundreds(SearchFrom(st, host, sigs[i], host.minEa), host, sigs, c1, c2, i + 1);
    }
  }

  /** The index of the first poll at or after `c`. */
  function NextPoll(c: nat): (p: nat)
    ensures c <= p < c + 100 && p % 100 == 0
  {
    (c + 99) / 100 * 100
  }

  /** A cancellation requested while signature `c - 1` is searched (the
      answer is yes from index `c` on) takes effect at the next poll: the
      run is that of the signatures before `NextPoll(c)` without any
      cancellation. */
  lemma {:induction false} CancelAtNextPoll(st: State, host: Host, sigs: seq<Sig>, cancelled: nat -> bool, c: nat, i: nat)
    requires forall k: nat :: cancelled(k) <==> c <= k
    requires i <= |sigs| && i <= NextPoll(c)
    ensures var m := if |sigs| < NextPoll(c) then |sigs| else NextPoll(c);
      ScanFrom(st, host, sigs, cancelled, i) == ScanFrom(st, host, sigs[..m], _ => false, i)
    decreases |sigs| - i
  {
    var m := if |sigs| < NextPoll(c) then |sigs| else NextPoll(c);
    if i == m {
      if m < |sigs| {
        assert cancelled(m);
      }
    } else {
      assert !(i % 100 == 0 && cancelled(i));
      assert sigs[..m][i] == sigs[i];
      CancelAtNextPoll(SearchFrom(st, host, sigs[i], host.minEa), host, sigs, cancelled, c, i + 1);
    }
  }

  /** A cancellation requested after signature 50 of 200 still lets the
      signatures up to index 99 run. */
  lemma CancelAfterFifty(st: State, host: Host, sigs: seq<Sig>, cancelled: nat -> bool)
    requires |sigs| == 200
    requires forall k: nat :: cancelled(k) <==> 50 <= k
    ensures ScanFrom(st, host, sigs, cancelled, 0) == ScanFrom(st, host, sigs[..100], _ => false, 0)
  {
    CancelAtNextPoll(st, host, sigs, cancelled, 50, 0);
  }

  // ---------------------------------------------------------------------
  // The plugin's loops
  // ---------------------------------------------------------------------

  /** The probing loop of `rename_function`. */
  method AllocateName(base: string, names: set<string>) returns (finalName: string)
    ensures finalName == FreeName(base, names)
  {
    finalName := base;
    var i := 1;
    while finalName in names
      invariant 1 <= i && finalName == Candidate(base, i - 1)
      invariant forall k :: 0 <= k < i - 1 ==> Candidate(base, k) in names
      decreases |names| - i
    {
      TakenBound(base, names, i);
      finalName := base + "_" + NatToDec(i);
      i := i + 1;
    }
    FreeSuffixUnique(base, names, i - 1);
  }

  /** The mutable state of `main`'s scan, with the renames it has applied
      to the database. */
  class Scanner {
    var existingNames: set<string>
    var renamedFunctionsEa: set<int>
    var renamedCount: nat
    ghost var applied: seq<(int, string)>

    ghost function Current(): State
      reads this
    {
      State(existingNames, renamedFunctionsEa, renamedCount, applied)
    }

    /** The sets and the counter as `main` sets them up. */
    constructor (names: set<string>)
      ensures Current() == Initial(names)
    {
      existingNames := names;
      renamedFunctionsEa := {};
      renamedCount := 0;
      applied := [];
    }

    /** `rename_function`: apply the free name for `name` at `ea`, and
        record it among the existing names when `set_name` accepts it. */
    method RenameFunction(ea: int, name: string, setName: (int, string) -> bool) returns (ok: bool)
      modifies this`existingNames, this`applied
      ensures var n := FreeName(name, old(existingNames));
        && ok == setName(ea, n)
        && existingNames == (if ok then old(existingNames) + {n} else old(existingNames))
        && applied == (if ok then old(applied) + [(ea, n)] else old(applied))
    {
      var finalName := AllocateName(name, existingNames);
      ok := setName(ea, finalName);
      if ok {
        existingNames := existingNames + {finalName};
        applied := applied + [(ea, finalName)];
      }
    }

    /** The body of the inner loop for a hit at `foundEa`. */
    method VisitHit(host: Host, name: string, foundEa: int)
      modifies this
      ensures Current() == Visit(old(Current()), host, name, foundEa)
    {
      var func := host.funcStart(foundEa);
      if func.Some? && func.value == foundEa {
        if foundEa !in renamedFunctionsEa {
          var ok := RenameFunction(foundEa, name, host.setName);
          if ok {
            renamedCount := renamedCount + 1;
            renamedFunctionsEa := renamedFunctionsEa + {foundEa};
          }
        }
      }
    }

    /** Every occurrence of one signature, from the start of the range. */
    method SearchSignature(host: Host, s: Sig)
      modifies this
      ensures Current() == SearchFrom(old(Current()), host, s, host.minEa)
    {
      var currentEa := host.minEa;
      ghost var goal := SearchFrom(Current(), host, s, host.minEa);
      while currentEa < host.MaxEa()
        invariant host.minEa <= currentEa
        invariant SearchFrom(Current(), host, s, currentEa) == goal
        decreases host.MaxEa() - currentEa
      {
        var next := SearchOnce(host, s, currentEa);
        if next.None? {
          break;
        }
        currentEa := next.value;
      }
    }

    /** One `find_bytes` call and its hit: the cursor after the hit, or None
        when the search is over. */
    method SearchOnce(host: Host, s: Sig, currentEa: int) returns (next: Option<int>)
      requires host.minEa <= currentEa < host.MaxEa()
      modifies this
      ensures next.None? ==> Current() == old(Current()) == SearchFrom(old(Current()), host, s, currentEa)
      ensures next.Some? ==> currentEa < next.value
      ensures next.Some? ==> SearchFrom(Current(), host, s, next.value) == SearchFrom(old(Current()), host, s, currentEa)
    {
      var found := FindBytes(host, s.pattern, currentEa);
      SearchStep(Current(), host, s, currentEa);
      if found.None? {
        return None;
      }
      var foundEa := found.value;
      VisitHit(host, s.name, foundEa);
      next := Some(foundEa + 1);
    }

    /** The signature loop, with the cancellation poll every 100
        signatures. */
    method ScanSignatures(host: Host, sigs: seq<Sig>, cancelled: nat -> bool)
      modifies this
      ensures Current() == ScanFrom(old(Current()), host, sigs, cancelled, 0)
    {
      var i := 0;
      while i < |sigs|
        invariant i <= |sigs|
        invariant ScanFrom(Current(), host, sigs, cancelled, i) == ScanFrom(old(Current()), host, sigs, cancelled, 0)
      {
        if i % 100 == 0 {
          if cancelled(i) {
            break;
          }
        }
        SearchSignature(host, sigs[i]);
        i := i + 1;
      }
    }
  }

  /** Lines 70-117 of `main`: start from the names in the database, scan,
      and report how many functions were renamed. */
  method Run(names0: set<string>, host: Host, sigs: seq<Sig>, cancelled: nat -> bool) returns (renamedCount: nat)
    ensures renamedCount == ScanFrom(Initial(names0), host, sigs, cancelled, 0).count
  {
    var scanner := new Scanner(names0);
    scanner.ScanSignatures(host, sigs, cancelled);
    renamedCount := scanner.renamedCount;
  }
}
