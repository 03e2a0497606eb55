/** Any run of `allocate` and `free` after `init`: nobody is handed memory that somebody else holds. */
module AllocatorRuns {
  import opened BuddyBlocks
  import opened BuddyAddresses
  import opened BuddyRanges
  import opened PhysicalPages

  /** A block that has been handed out. */
  datatype Loan = Loan(addr: nat, k: nat)
  {
    predicate Proper() { k < LEVELS && addr % Bytes(k) == 0 }

    ghost function Pages(): iset<nat> { PagesOf(addr / Bytes(k), k) }
  }

  datatype Request = Take(order: nat) | Give(index: nat)

  datatype Answer = Lent(loan: Loan) | Refused | TakenBack(loan: Loan) | NoSuchLoan

  /** What is lent and not given back after the given answers. */
  function Outstanding(requests: seq<Request>, answers: seq<Answer>): seq<Loan>
    requires |answers| <= |requests|
  {
    if answers == [] then []
    else
      var n := |answers| - 1;
      AfterAnswer(Outstanding(requests, answers[..n]), requests[n], answers[n])
  }

  function AfterAnswer(live: seq<Loan>, request: Request, answer: Answer): seq<Loan> {
    match answer
    case Lent(x) => live + [x]
    case TakenBack(_) =>
      if request.Give? && request.index < |live| then live[..request.index] + live[request.index + 1..] else live
    case _ => live
  }

  /** `allocate`, as written or with the split repaired, lends a block exactly if it finds one; `free` takes back the
      block that is named. */
  ghost predicate Served(ls: seq<set<nat>>, live: seq<Loan>, request: Request, fixed: bool, answer: Answer,
                         ls': seq<set<nat>>)
    requires AlignedLists(ls)
  {
    match request
    case Take(order) =>
      var k := order - PAGE_ORDER;
      if !fixed then
        && ls' == AfterWritten(ls, order)
        && answer == if Written(ls, order).Block? then Lent(Loan(Written(ls, order).addr, k)) else Refused
      else if 0 <= k < LEVELS && exists j: nat | k <= j < LEVELS :: ls[j] != {} then
        && answer.Lent? && answer.loan.k == k && answer.loan.addr % Bytes(k) == 0
        && Took(Blocks(ls), Blocks(ls'), answer.loan.addr / Bytes(k), k)
      else answer == Refused && ls' == ls
    case Give(index) =>
      if index < |live| && live[index].Proper() then
        && answer == TakenBack(live[index])
        && Blocks(ls') == Free(Blocks(ls), live[index].addr / Bytes(live[index].k), live[index].k)
      else answer == NoSuchLoan && ls' == ls
  }

  /** Loans overlap neither each other nor the free blocks, and all come from `home`. */
  ghost predicate Accounted(ls: Lists, live: seq<Loan>, home: iset<nat>) {
    && Tidy(ls)
    && (forall p: nat | Covered(ls, p) :: p in home)
    && (forall i: nat | i < |live| :: live[i].Proper() && live[i].Pages() <= home)
    && (forall i: nat, p: nat | i < |live| && p in live[i].Pages() :: !Covered(ls, p))
    && (forall i: nat, j: nat | i < j < |live| :: live[i].Pages() !! live[j].Pages())
  }

  lemma TakeAccounted(ls: Lists, ls': Lists, live: seq<Loan>, home: iset<nat>, x: Loan)
    requires Accounted(ls, live, home) && x.Proper() && Took(ls, ls', x.addr / Bytes(x.k), x.k)
    ensures Accounted(ls', live + [x], home)
  {
  }

  lemma GiveAccounted(ls: Lists, live: seq<Loan>, home: iset<nat>, n: nat)
    requires n < |live| && Accounted(ls, live, home)
    ensures Accounted(Free(ls, live[n].addr / Bytes(live[n].k), live[n].k), live[..n] + live[n + 1..], home)
  {
    hide Covered, Disjoint, NoPairs, Bytes, Free;
    var x, rest := live[n], live[..n] + live[n + 1..];
    forall p: nat | Up(p, x.k) == x.addr / Bytes(x.k) ensures !Covered(ls, p) {
      assert p in live[n].Pages();
    }
    FreeEffect(ls, x.addr / Bytes(x.k), x.k);
    forall i: nat | i < |rest|
      ensures rest[i] in live && rest[i].Proper() && rest[i].Pages() <= home && rest[i].Pages() !! x.Pages()
      ensures forall p: nat | p in rest[i].Pages() :: !Covered(ls, p)
    {
      var j := if i < n then i else i + 1;
      assert rest[i] == live[j];
      assert if j < n then live[j].Pages() !! live[n].Pages() else live[n].Pages() !! live[j].Pages();
      assert forall p: nat | p in live[j].Pages() :: !Covered(ls, p);
    }
    forall i: nat, j: nat | i < j < |rest|
      ensures rest[i].Pages() !! rest[j].Pages()
    {
      assert live[if i < n then i else i + 1].Pages() !! live[if j < n then j else j + 1].Pages();
    }
  }

  /** The free lists and the loans before request `i`, or at the end. */
  ghost predicate AccountedAt(home: iset<nat>, requests: seq<Request>, history: seq<seq<set<nat>>>,
                              answers: seq<Answer>, i: nat)
    requires i <= |answers| <= |requests| && |answers| < |history|
  {
    AlignedLists(history[i]) && Accounted(Blocks(history[i]), Outstanding(requests, answers[..i]), home)
  }

  ghost predicate ServedAt(home: iset<nat>, requests: seq<Request>, fixed: bool, history: seq<seq<set<nat>>>,
                           answers: seq<Answer>, i: nat)
    requires i < |answers| <= |requests| && |answers| < |history| && AccountedAt(home, requests, history, answers, i)
  {
    Served(history[i], Outstanding(requests, answers[..i]), requests[i], fixed, answers[i], history[i + 1])
  }

  /** The requests answered so far, one by one; at every point all loans are accounted for. */
  ghost predicate Serving(home: iset<nat>, requests: seq<Request>, fixed: bool, history: seq<seq<set<nat>>>,
                          answers: seq<Answer>)
  {
    && |answers| <= |requests| && |history| == |answers| + 1
    && (forall i: nat | i <= |answers| :: AccountedAt(home, requests, history, answers, i))
    && (forall i: nat | i < |answers| :: ServedAt(home, requests, fixed, history, answers, i))
  }

  lemma ServingStep(home: iset<nat>, requests: seq<Request>, fixed: bool, history: seq<seq<set<nat>>>,
                    answers: seq<Answer>, answer: Answer, ls: seq<set<nat>>, live: seq<Loan>)
    requires Serving(home, requests, fixed, history, answers) && |answers| < |requests|
    requires var before := Outstanding(requests, answers);
             && AlignedLists(history[|answers|])
             && Served(history[|answers|], before, requests[|answers|], fixed, answer, ls)
             && live == AfterAnswer(before, requests[|answers|], answer)
    requires AlignedLists(ls) && Accounted(Blocks(ls), live, home)
    ensures Serving(home, requests, fixed, history + [ls], answers + [answer])
    ensures Outstanding(requests, answers + [answer]) == live
  {
    hide Accounted, AlignedLists, Served, AfterAnswer;
    var n, history', answers' := |answers|, history + [ls], answers + [answer];
    assert answers'[..n] == answers == answers[..n] && answers'[..n + 1] == answers';
    assert AccountedAt(home, requests, history', answers', n + 1);
    forall i: nat | i <= n ensures AccountedAt(home, requests, history', answers', i) {
      assert AccountedAt(home, requests, history, answers, i) && answers'[..i] == answers[..i];
    }
    forall i: nat | i <= n ensures ServedAt(home, requests, fixed, history', answers', i) {
      if i < n {
        assert ServedAt(home, requests, fixed, history, answers, i) && answers'[..i] == answers[..i];
      }
    }
  }

  /** A loan stays until it is given back. */
  lemma {:induction false} StillOut(home: iset<nat>, requests: seq<Request>, fixed: bool, history: seq<seq<set<nat>>>,
                                    answers: seq<Answer>, i: nat, j: nat)
    requires Serving(home, requests, fixed, history, answers) && i < j <= |answers| && answers[i].Lent?
    requires forall n: nat | i < n < j :: answers[n] != TakenBack(answers[i].loan)
    ensures answers[i].loan in Outstanding(requests, answers[..j])
    decreases j
  {
    hide Accounted, AlignedLists;
    assert answers[..j][..j - 1] == answers[..j - 1];
    if i < j - 1 {
      StillOut(home, requests, fixed, history, answers, i, j - 1);
      assert ServedAt(home, requests, fixed, history, answers, j - 1);
    }
  }

  /** Nobody is handed memory that somebody else holds: two loans overlap only if the first was given back before the
      second was made. */
  lemma NeverLentTwice(home: iset<nat>, requests: seq<Request>, fixed: bool, history: seq<seq<set<nat>>>,
                       answers: seq<Answer>, i: nat, j: nat)
    requires Serving(home, requests, fixed, history, answers) && i < j < |answers|
    requires answers[i].Lent? && answers[j].Lent?
    requires forall n: nat | i < n < j :: answers[n] != TakenBack(answers[i].loan)
    ensures answers[i].loan.Pages() !! answers[j].loan.Pages()
    ensures answers[j].loan.Proper() && answers[j].loan.Pages() <= home
  {
    hide Covered, Tidy, AlignedLists;
    StillOut(home, requests, fixed, history, answers, i, j);
    assert AccountedAt(home, requests, history, answers, j + 1);
    assert answers[..j + 1][..j] == answers[..j];
    var before, live := Outstanding(requests, answers[..j]), Outstanding(requests, answers[..j + 1]);
    assert live == before + [answers[j].loan];
    var n: nat :| n < |before| && before[n] == answers[i].loan;
    assert live[n].Pages() !! live[|before|].Pages();
  }

  /** What is given back is taken back and free again, and what was free stays free, but for the half of a chunk that
      `free` loses. */
  lemma GivenBackIsFree(home: iset<nat>, requests: seq<Request>, fixed: bool, history: seq<seq<set<nat>>>,
                        answers: seq<Answer>, i: nat, n: nat)
    requires Serving(home, requests, fixed, history, answers) && i < |answers| && requests[i] == Give(n)
    requires n < |Outstanding(requests, answers[..i])|
    ensures
      var x, ls, ls' := Outstanding(requests, answers[..i])[n], Blocks(history[i]), Blocks(history[i + 1]);
      && answers[i] == TakenBack(x) && x.k < LEVELS && (forall p: nat | p in x.Pages() :: Covered(ls', p))
      && (forall p: nat | Covered(ls, p) ::
            Covered(ls', p) || (ChunkFull(ls, x.addr / Bytes(x.k), x.k) && OtherHalf(x.addr / Bytes(x.k), x.k, p)))
  {
    hide Covered, Disjoint, NoPairs, Bytes, Free, Outstanding, Up, ChunkFull, AlignedLists;
    assert AccountedAt(home, requests, history, answers, i) && ServedAt(home, requests, fixed, history, answers, i);
    var live, ls := Outstanding(requests, answers[..i]), Blocks(history[i]);
    var x := live[n];
    var b := x.addr / Bytes(x.k);
    forall p: nat | Up(p, x.k) == b
      ensures !Covered(ls, p) && !OtherHalf(b, x.k, p)
    {
      assert p in live[n].Pages();
      UpAdd(p, x.k, LEVELS - 1 - x.k);
    }
    FreeEffect(ls, b, x.k);
  }

  /** As written, `allocate` gives the lowest block first: as long as nothing is given back, the blocks of an order come
      in ascending order. */
  lemma TakesAscend(home: iset<nat>, requests: seq<Request>, history: seq<seq<set<nat>>>, answers: seq<Answer>,
                    i: nat, j: nat, order: nat)
    requires Serving(home, requests, false, history, answers) && i < j < |answers|
    requires requests[i] == requests[j] == Take(order) && forall n: nat | i < n < j :: requests[n].Take?
    requires answers[i].Lent? && answers[j].Lent?
    ensures answers[i].loan.addr < answers[j].loan.addr
  {
    hide Accounted, Outstanding;
    var k := order - PAGE_ORDER;
    assert AccountedAt(home, requests, history, answers, i) && ServedAt(home, requests, false, history, answers, i);
    assert AccountedAt(home, requests, history, answers, j) && ServedAt(home, requests, false, history, answers, j);
    assert AccountedAt(home, requests, history, answers, i + 1);
    ListShrinks(home, requests, history, answers, i + 1, j, k);
    assert IsLeast(history[i][k], answers[i].loan.addr) && IsLeast(history[j][k], answers[j].loan.addr);
    assert history[i + 1][k] == history[i][k] - {answers[i].loan.addr};
  }

  lemma {:induction false} ListShrinks(home: iset<nat>, requests: seq<Request>, history: seq<seq<set<nat>>>,
                                       answers: seq<Answer>, i: nat, j: nat, k: nat)
    requires Serving(home, requests, false, history, answers) && i <= j <= |answers| && k < LEVELS
    requires forall n: nat | i <= n < j :: requests[n].Take?
    ensures |history[i]| == |history[j]| == LEVELS && history[j][k] <= history[i][k]
    decreases j
  {
    hide Accounted, Outstanding;
    assert AccountedAt(home, requests, history, answers, i) && AccountedAt(home, requests, history, answers, j);
    if i < j {
      ListShrinks(home, requests, history, answers, i, j - 1, k);
      assert AccountedAt(home, requests, history, answers, j - 1);
      assert ServedAt(home, requests, false, history, answers, j - 1);
    }
  }

  /** Serves requests in any order, with `allocate` as written or with the split repaired. */
  method Serve(a: PageAllocator, requests: seq<Request>, fixed: bool, ghost home: iset<nat>)
    returns (answers: seq<Answer>, live: seq<Loan>, ghost history: seq<seq<set<nat>>>)
    requires a.Valid() && forall p: nat | a.IsFree(p) :: p in home
    modifies a
    ensures a.Valid() && Accounted(Blocks(a.freeLists), live, home)
    ensures Serving(home, requests, fixed, history, answers) && |answers| == |requests|
    ensures live == Outstanding(requests, answers)
    ensures history[0] == old(a.freeLists) && history[|answers|] == a.freeLists
  {
    hide Covered, Tidy, Bytes, AlignedList, Free, Took, Outstanding, Served, Serving;
    answers, live, history := [], [], [a.freeLists];
    ServingStarts(home, requests, fixed, a.freeLists);
    for n := 0 to |requests|
      invariant a.Valid() && Accounted(Blocks(a.freeLists), live, home)
      invariant |answers| == n && |history| == n + 1 && Serving(home, requests, fixed, history, answers)
      invariant live == Outstanding(requests, answers) && history[0] == old(a.freeLists) && history[n] == a.freeLists
    {
      var answer, live' := ServeOne(a, live, requests[n], fixed, home);
      ServingStep(home, requests, fixed, history, answers, answer, a.freeLists, live');
      answers, live, history := answers + [answer], live', history + [a.freeLists];
    }
  }

  lemma ServingStarts(home: iset<nat>, requests: seq<Request>, fixed: bool, ls: seq<set<nat>>)
    requires AlignedLists(ls) && Accounted(Blocks(ls), [], home)
    ensures Serving(home, requests, fixed, [ls], []) && Outstanding(requests, []) == []
  {
  }

  method ServeOne(a: PageAllocator, live: seq<Loan>, request: Request, fixed: bool, ghost home: iset<nat>)
    returns (answer: Answer, live': seq<Loan>)
    requires a.Valid() && Accounted(Blocks(a.freeLists), live, home)
    modifies a
    ensures a.Valid() && Accounted(Blocks(a.freeLists), live', home)
    ensures Served(old(a.freeLists), live, request, fixed, answer, a.freeLists)
    ensures live' == AfterAnswer(live, request, answer)
  {
    hide Covered, Tidy, Bytes, AlignedList, Free, Took;
    ghost var ls := a.freeLists;
    match request {
      case Take(order) =>
        var r := a.AllocateWith(order, fixed);
        WrittenTakes(ls, a.freeLists, order, fixed, r);
        if r.Block? {
          var x := Loan(r.addr, order - PAGE_ORDER);
          TakeAccounted(Blocks(ls), Blocks(a.freeLists), live, home, x);
          answer, live' := Lent(x), live + [x];
        } else {
          answer, live' := Refused, live;
        }
      case Give(index) =>
        if index < |live| {
          GiveAccounted(Blocks(ls), live, home, index);
          a.Free(live[index].addr, live[index].k + PAGE_ORDER);
          answer, live' := TakenBack(live[index]), live[..index] + live[index + 1..];
        } else {
          answer, live' := NoSuchLoan, live;
        }
    }
  }

  lemma WrittenTakes(ls: seq<set<nat>>, ls': seq<set<nat>>, order: nat, fixed: bool, r: AllocOutcome)
    requires AlignedLists(ls) && Tidy(Blocks(ls))
    requires !fixed ==> r == Written(ls, order) && ls' == AfterWritten(ls, order)
    ensures !fixed && !r.Block? ==> ls' == ls
    ensures !fixed && r.Block? ==>
              && PAGE_ORDER <= order < PAGE_ORDER + LEVELS && AlignedLists(ls') && Tidy(Blocks(ls'))
              && r.addr % Bytes(order - PAGE_ORDER) == 0
              && Took(Blocks(ls), Blocks(ls'), r.addr / Bytes(order - PAGE_ORDER), order - PAGE_ORDER)
  {
    if !fixed && r.Block? {
      TakeAddress(ls, r.addr, order - PAGE_ORDER, true);
    }
  }

  /** Everything lent in a run after `init` lies in the ranges. */
  method Boot(ranges: seq<Range>, requests: seq<Request>, fixed: bool)
    returns (a: PageAllocator, answers: seq<Answer>, live: seq<Loan>, ghost history: seq<seq<set<nat>>>)
    requires Separate(ranges)
    ensures a.Valid() && Accounted(Blocks(a.freeLists), live, AllKept(ranges, |ranges|))
    ensures Serving(AllKept(ranges, |ranges|), requests, fixed, history, answers) && |answers| == |requests|
    ensures Tracks(Blocks(history[0]), AllKept(ranges, |ranges|))
    ensures live == Outstanding(requests, answers) && history[|answers|] == a.freeLists
  {
    a := new PageAllocator();
    a.Init(ranges);
    answers, live, history := Serve(a, requests, fixed, AllKept(ranges, |ranges|));
  }
}
