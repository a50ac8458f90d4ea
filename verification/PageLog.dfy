/**
 * What was asked of a page, call by call. Together with the page's replies it decides what is due next, what has been
 * learned, and what has been attempted.
 */
module PageLog {
  import opened Errors

  /** One answer of the page: it may throw, and it takes time. */
  datatype Reply = Reply(
    throws: bool, yes: bool, count: nat, text: string, texts: seq<string>, session: Session, elapsed: nat)

  datatype Event =
    | Inspected(session: Session)
    | Polled(answers: nat)
    | Submitting
    | ReadBack(text: string)
    | FillRejected
    | AnswersRead(texts: seq<string>)

  datatype Means = Button | Enter

  /** An attempt to send; one whose action throws counts as not completed. */
  datatype Attempt = Attempt(means: Means, completed: bool)

  /** What a call asks for. `Other` stands for every call whose reply only steers the code. */
  datatype Call =
    | Inspect | CountAnswers | ReadBox | ReadBoxAgain | ReadAnswers
    | CountButtons(selector: nat) | IsVisible | IsEnabled | Click
    | FindBoxToPress | Press
    | Other

  const SEND_SELECTORS := 5
  const MAX_CANDIDATES := 10

  /** The reply is there and positive. */
  predicate Shows(script: nat -> Reply, c: nat) {
    !script(c).throws && script(c).yes
  }

  // ------------------------------------------------------------------ what a call comes to

  predicate IsReport(call: Call) {
    call.Inspect? || call.CountAnswers? || call.ReadBox? || call.ReadBoxAgain? || call.ReadAnswers?
  }

  /** What is learned. The second reading of the input box counts as empty when it throws. */
  function ReportOf(call: Call, r: Reply): seq<Event> {
    match call
    case Inspect => if r.throws then [] else [Inspected(r.session)]
    case CountAnswers => if r.throws then [] else [Polled(r.count)]
    case ReadBox => if r.throws then [] else [ReadBack(r.text)]
    case ReadBoxAgain => [ReadBack(if r.throws then "" else r.text)]
    case ReadAnswers => if r.throws then [] else [AnswersRead(r.texts)]
    case _ => []
  }

  predicate IsSend(call: Call) {
    call.Click? || call.Press?
  }

  function SentBy(call: Call, r: Reply): seq<Attempt> {
    match call
    case Click => [Attempt(Button, !r.throws)]
    case Press => [Attempt(Enter, !r.throws)]
    case _ => []
  }

  /**
   * What the replies so far make due: `left` candidates of a selector to look at, one that is visible to check, one
   * that is enabled to click, or the box that was found to press Enter in.
   */
  datatype Due =
    | Free
    | Looking(selector: nat, left: nat)
    | Checking(selector: nat, left: nat)
    | Clicking(selector: nat, left: nat)
    | Pressing

  /** After the last candidate of the last selector nothing is due. */
  function Round(selector: nat, left: nat): Due {
    if left == 0 && selector + 1 >= SEND_SELECTORS then Free else Looking(selector, left)
  }

  /** What is due when the selectors before this one have been tried in vain. */
  function DueBefore(selector: nat): Due {
    if selector == 0 then Free else Round(selector - 1, 0)
  }

  /** The selectors are tried in order, the candidates of each one by one; a send comes only when it is due. */
  predicate Allows(due: Due, call: Call) {
    match due
    case Free =>
      call == CountButtons(0) || call == FindBoxToPress || call == Other || IsReport(call)
    case Looking(selector, left) => call == if left == 0 then CountButtons(selector + 1) else IsVisible
    case Checking(_, _) => call == IsEnabled
    case Clicking(_, _) => call == Click
    case Pressing => call == Press
  }

  function Candidates(count: nat): nat {
    if count < MAX_CANDIDATES then count else MAX_CANDIDATES
  }

  /** A completed click ends the round, a thrown one goes on to the next candidate. */
  function Moved(due: Due, call: Call, r: Reply): Due {
    match call
    case CountButtons(selector) => if r.throws then Free else Round(selector, Candidates(r.count))
    case IsVisible =>
      if !due.Looking? || due.left == 0 then Free
      else if !r.throws && r.yes then Checking(due.selector, due.left - 1) else Round(due.selector, due.left - 1)
    case IsEnabled =>
      if !due.Checking? then Free
      else if !r.throws && r.yes then Clicking(due.selector, due.left) else Round(due.selector, due.left)
    case Click => if due.Clicking? && r.throws then Round(due.selector, due.left) else Free
    case FindBoxToPress => if !r.throws && r.yes then Pressing else Free
    case _ => Free
  }

  // ------------------------------------------------------------------------- whole runs

  /** What is due, what is of note so far, and what has been attempted. */
  datatype Stage = Stage(due: Due, before: seq<Event>, attempts: seq<Attempt>)

  /** The page's events; the others are the code's own doing. */
  predicate IsPages(e: Event) {
    !e.Submitting? && !e.FillRejected?
  }

  predicate OwnSince(start: seq<Event>, before: seq<Event>) {
    start <= before && forall i :: |start| <= i < |before| ==> !IsPages(before[i])
  }

  /** The call was due, and the reply makes of it what it must; nothing is learned after an attempt to send. */
  predicate Steps(s: Stage, call: Call, r: Reply, t: Stage) {
    && Allows(s.due, call) && (IsReport(call) ==> s.attempts == [])
    && t.due == Moved(s.due, call, r)
    && t.attempts == s.attempts + SentBy(call, r)
    && OwnSince(s.before + ReportOf(call, r), t.before)
  }

  predicate Starts(s: Stage) {
    s.due.Free? && s.attempts == [] && OwnSince([], s.before)
  }

  /** `stages[c]` is what the page's replies before call `c` have led to. */
  ghost predicate Run(script: nat -> Reply, asked: seq<Call>, stages: seq<Stage>) {
    && |stages| == |asked| + 1 && Starts(stages[0])
    && forall c {:trigger asked[c]} :: 0 <= c < |asked| ==> Steps(stages[c], asked[c], script(c), stages[c + 1])
  }

  /** The calls and the page's replies make a run that ends in the stage. */
  ghost predicate LeadsTo(script: nat -> Reply, asked: seq<Call>, s: Stage) {
    exists stages :: Run(script, asked, stages) && stages[|asked|] == s
  }

  lemma RunStep(script: nat -> Reply, asked: seq<Call>, stages: seq<Stage>, c: nat)
    requires Run(script, asked, stages) && c < |asked|
    ensures Steps(stages[c], asked[c], script(c), stages[c + 1])
  {
  }

  lemma RunGrows(script: nat -> Reply, asked: seq<Call>, stages: seq<Stage>, call: Call, t: Stage)
    requires Run(script, asked, stages) && Steps(stages[|asked|], call, script(|asked|), t)
    ensures Run(script, asked + [call], stages + [t])
  {
    var asked', stages' := asked + [call], stages + [t];
    forall c | 0 <= c < |asked'| ensures Steps(stages'[c], asked'[c], script(c), stages'[c + 1]) {
      if c < |asked| {
        RunStep(script, asked, stages, c);
      }
    }
  }

  lemma LeadsOn(script: nat -> Reply, asked: seq<Call>, s: Stage, call: Call, t: Stage)
    requires LeadsTo(script, asked, s) && Steps(s, call, script(|asked|), t)
    ensures LeadsTo(script, asked + [call], t)
  {
    var stages :| Run(script, asked, stages) && stages[|asked|] == s;
    RunGrows(script, asked, stages, call, t);
    assert (stages + [t])[|asked + [call]|] == t;
  }

  lemma LeadsToNoted(script: nat -> Reply, asked: seq<Call>, s: Stage, e: Event)
    requires LeadsTo(script, asked, s) && !IsPages(e)
    ensures LeadsTo(script, asked, s.(before := s.before + [e]))
  {
    var stages :| Run(script, asked, stages) && stages[|asked|] == s;
    var t := s.(before := s.before + [e]);
    var noted := stages[..|asked|] + [t];
    forall c | 0 <= c < |asked| ensures Steps(noted[c], asked[c], script(c), noted[c + 1]) {
      RunStep(script, asked, stages, c);
      assert noted[c] == stages[c];
    }
    assert Run(script, asked, noted) && noted[|asked|] == t;
  }

  // ------------------------------------------------------------- what the page offered

  /** A candidate that is looked at with call `c` is visible and, as the next call tells, enabled. */
  predicate ShowsControl(script: nat -> Reply, asked: seq<Call>, c: nat) {
    c + 1 < |asked| && asked[c].IsVisible? && Shows(script, c) && asked[c + 1].IsEnabled? && Shows(script, c + 1)
  }

  /** The input box is there when it is looked for to press Enter. */
  predicate ShowsBox(script: nat -> Reply, asked: seq<Call>, c: nat) {
    c < |asked| && asked[c].FindBoxToPress? && Shows(script, c)
  }

  function OfferOf(call: Call, r: Reply): seq<Means> {
    if r.throws || !r.yes then []
    else if call.IsEnabled? then [Button]
    else if call.FindBoxToPress? then [Enter]
    else []
  }

  /** Everything the page offered in the first `n` calls, in order. */
  function Offered(script: nat -> Reply, asked: seq<Call>, n: nat): seq<Means>
    requires n <= |asked|
  {
    if n == 0 then [] else Offered(script, asked, n - 1) + OfferOf(asked[n - 1], script(n - 1))
  }

  function MeansOf(attempts: seq<Attempt>): seq<Means> {
    seq(|attempts|, i requires 0 <= i < |attempts| => attempts[i].means)
  }

  /** The offer that has been made and not been taken up yet. */
  function OpenOffer(due: Due): seq<Means> {
    if due.Clicking? then [Button] else if due.Pressing? then [Enter] else []
  }

  function WithOpen(s: Stage): seq<Means> {
    MeansOf(s.attempts) + OpenOffer(s.due)
  }

  /** Every offer is taken up by one attempt with its means before anything else is done; nothing else is attempted. */
  lemma OffersTaken(script: nat -> Reply, asked: seq<Call>, stages: seq<Stage>)
    requires Run(script, asked, stages)
    ensures Offered(script, asked, |asked|) == WithOpen(stages[|asked|])
  {
    var held := Held(stages);
    forall c {:trigger asked[c]} | 0 <= c < |asked| ensures held[c] + OfferOf(asked[c], script(c)) == held[c + 1] {
      HeldNext(script, asked, stages, c);
    }
    OffersAddUp(script, asked, held, |asked|);
  }

  function Held(stages: seq<Stage>): seq<seq<Means>> {
    seq(|stages|, c requires 0 <= c < |stages| => WithOpen(stages[c]))
  }

  lemma HeldNext(script: nat -> Reply, asked: seq<Call>, stages: seq<Stage>, c: nat)
    requires Run(script, asked, stages) && c < |asked|
    ensures Held(stages)[c] + OfferOf(asked[c], script(c)) == Held(stages)[c + 1]
  {
    OfferNext(stages[c], asked[c], script(c), stages[c + 1]);
  }

  lemma {:induction false} OffersAddUp(script: nat -> Reply, asked: seq<Call>, held: seq<seq<Means>>, n: nat)
    requires n <= |asked| && |held| == |asked| + 1 && held[0] == []
    requires forall c {:trigger asked[c]} :: 0 <= c < |asked| ==> held[c] + OfferOf(asked[c], script(c)) == held[c + 1]
    ensures Offered(script, asked, n) == held[n]
  {
    if n > 0 {
      OffersAddUp(script, asked, held, n - 1);
      assert held[n - 1] + OfferOf(asked[n - 1], script(n - 1)) == held[n];
    }
  }

  lemma OfferNext(s: Stage, call: Call, r: Reply, t: Stage)
    requires Steps(s, call, r, t)
    ensures WithOpen(s) + OfferOf(call, r) == WithOpen(t)
  {
    if IsSend(call) {
      assert MeansOf(t.attempts) == MeansOf(s.attempts) + OpenOffer(s.due);
    }
  }

  /** A check for being enabled follows directly on the look that found the candidate visible. */
  lemma CheckedWhenVisible(script: nat -> Reply, asked: seq<Call>, stages: seq<Stage>, c: nat)
    requires Run(script, asked, stages) && c < |asked| && asked[c].IsEnabled?
    ensures c > 0 && asked[c - 1].IsVisible? && Shows(script, c - 1)
  {
    RunStep(script, asked, stages, c);
    assert stages[c].due.Checking?;
    if c > 0 {
      RunStep(script, asked, stages, c - 1);
    }
  }

  lemma {:induction false} OfferedAt(script: nat -> Reply, asked: seq<Call>, n: nat, means: Means)
    requires n <= |asked|
    ensures means in Offered(script, asked, n) <==> exists c :: 0 <= c < n && OfferOf(asked[c], script(c)) == [means]
  {
    if n > 0 {
      OfferedAt(script, asked, n - 1, means);
      SingleOffer(asked[n - 1], script(n - 1), means);
    }
  }

  lemma SingleOffer(call: Call, r: Reply, means: Means)
    ensures means in OfferOf(call, r) <==> OfferOf(call, r) == [means]
  {
  }

  lemma MeansInAttempts(attempts: seq<Attempt>, means: Means)
    ensures means in MeansOf(attempts) <==> Tried(attempts, means)
  {
    assert forall i :: 0 <= i < |attempts| ==> MeansOf(attempts)[i] == attempts[i].means;
  }

  lemma ControlsAreOffers(script: nat -> Reply, asked: seq<Call>, stages: seq<Stage>)
    requires Run(script, asked, stages)
    ensures Button in Offered(script, asked, |asked|) <==> exists c: nat :: ShowsControl(script, asked, c)
  {
    OfferedAt(script, asked, |asked|, Button);
    if c :| 0 <= c < |asked| && OfferOf(asked[c], script(c)) == [Button] {
      CheckedWhenVisible(script, asked, stages, c);
      assert ShowsControl(script, asked, c - 1);
    }
    if c: nat :| ShowsControl(script, asked, c) {
      assert OfferOf(asked[c + 1], script(c + 1)) == [Button];
    }
  }

  lemma BoxesAreOffers(script: nat -> Reply, asked: seq<Call>)
    ensures Enter in Offered(script, asked, |asked|) <==> exists c: nat :: ShowsBox(script, asked, c)
  {
    OfferedAt(script, asked, |asked|, Enter);
    if c :| 0 <= c < |asked| && OfferOf(asked[c], script(c)) == [Enter] {
      assert ShowsBox(script, asked, c);
    }
    if c: nat :| ShowsBox(script, asked, c) {
      assert OfferOf(asked[c], script(c)) == [Enter];
    }
  }

  predicate Tried(attempts: seq<Attempt>, means: Means) {
    exists i :: 0 <= i < |attempts| && attempts[i].means == means
  }

  /** Once every offer is taken up, the means tried are the means offered. */
  lemma TriedAreOffers(script: nat -> Reply, asked: seq<Call>, stages: seq<Stage>, means: Means)
    requires Run(script, asked, stages) && stages[|asked|].due.Free?
    ensures Tried(stages[|asked|].attempts, means) <==> means in Offered(script, asked, |asked|)
  {
    OffersTaken(script, asked, stages);
    MeansInAttempts(stages[|asked|].attempts, means);
  }

  /** The button was tried exactly when the page showed a control, Enter exactly when it showed the box. */
  lemma AttemptsAreOffers(script: nat -> Reply, asked: seq<Call>, s: Stage)
    requires LeadsTo(script, asked, s) && s.due.Free?
    ensures Tried(s.attempts, Button) <==> exists c: nat :: ShowsControl(script, asked, c)
    ensures Tried(s.attempts, Enter) <==> exists c: nat :: ShowsBox(script, asked, c)
  {
    var stages :| Run(script, asked, stages) && stages[|asked|] == s;
    TriedAreOffers(script, asked, stages, Button);
    TriedAreOffers(script, asked, stages, Enter);
    ControlsAreOffers(script, asked, stages);
    BoxesAreOffers(script, asked);
  }

  // ---------------------------------------------------------- every candidate is looked at

  /** How many candidates the counted selectors came to in the first `n` calls, at most ten each. */
  function Announced(script: nat -> Reply, asked: seq<Call>, n: nat): nat
    requires n <= |asked|
  {
    if n == 0 then 0
    else Announced(script, asked, n - 1) + AnnouncedBy(asked[n - 1], script(n - 1))
  }

  function AnnouncedBy(call: Call, r: Reply): nat {
    if call.CountButtons? && !r.throws then Candidates(r.count) else 0
  }

  function Looked(asked: seq<Call>, n: nat): nat
    requires n <= |asked|
  {
    if n == 0 then 0 else Looked(asked, n - 1) + LooksBy(asked[n - 1])
  }

  function LooksBy(call: Call): nat {
    if call.IsVisible? then 1 else 0
  }

  function LeftOf(due: Due): nat {
    match due
    case Looking(_, left) => left
    case Checking(_, left) => left
    case Clicking(_, left) => left
    case _ => 0
  }

  predicate NoneClicked(attempts: seq<Attempt>) {
    Attempt(Button, true) !in attempts
  }

  lemma {:induction false} CandidatesLeft(script: nat -> Reply, asked: seq<Call>, stages: seq<Stage>, n: nat)
    requires Run(script, asked, stages) && n <= |asked| && NoneClicked(stages[n].attempts)
    ensures Announced(script, asked, n) == Looked(asked, n) + LeftOf(stages[n].due)
  {
    if n > 0 {
      CandidateNext(stages[n - 1], asked[n - 1], script(n - 1), stages[n]);
      CandidatesLeft(script, asked, stages, n - 1);
    }
  }

  lemma CandidateNext(s: Stage, call: Call, r: Reply, t: Stage)
    requires Steps(s, call, r, t) && NoneClicked(t.attempts)
    ensures NoneClicked(s.attempts)
    ensures LeftOf(s.due) + AnnouncedBy(call, r) == LooksBy(call) + LeftOf(t.due)
  {
    assert forall a :: a in s.attempts || a in SentBy(call, r) ==> a in t.attempts;
  }

  /** Unless a click is completed, as many candidates are looked at as the page announced. */
  lemma CandidatesLookedAt(script: nat -> Reply, asked: seq<Call>, s: Stage)
    requires LeadsTo(script, asked, s) && s.due.Free? && NoneClicked(s.attempts)
    ensures Announced(script, asked, |asked|) == Looked(asked, |asked|)
  {
    var stages :| Run(script, asked, stages) && stages[|asked|] == s;
    CandidatesLeft(script, asked, stages, |asked|);
  }

  // --------------------------------------------------------- where an event comes from

  /** The call is the one that told the event. */
  predicate Tells(script: nat -> Reply, asked: seq<Call>, c: nat, e: Event) {
    c < |asked| && ReportOf(asked[c], script(c)) == [e]
  }

  /** Nothing is learned from the calls in between. */
  predicate NothingBetween(script: nat -> Reply, asked: seq<Call>, c: nat, d: nat) {
    c < d <= |asked| && forall m :: c < m < d ==> ReportOf(asked[m], script(m)) == []
  }

  lemma {:induction false} BeforeGrows(script: nat -> Reply, asked: seq<Call>, stages: seq<Stage>, m: nat, n: nat)
    requires Run(script, asked, stages) && m <= n <= |asked|
    ensures stages[m].before <= stages[n].before
    decreases n
  {
    if m < n {
      BeforeGrows(script, asked, stages, m, n - 1);
      BeforeNext(stages[n - 1], asked[n - 1], script(n - 1), stages[n]);
    }
  }

  lemma BeforeNext(s: Stage, call: Call, r: Reply, t: Stage)
    requires Steps(s, call, r, t)
    ensures s.before <= t.before && |s.before| + |ReportOf(call, r)| <= |t.before|
  {
  }

  /** An event of the page is told by the call before which as many events stood as before the event. */
  lemma {:induction false} EventFromCall(script: nat -> Reply, asked: seq<Call>, stages: seq<Stage>, n: nat, i: nat)
    returns (c: nat)
    requires Run(script, asked, stages) && n <= |asked| && i < |stages[n].before| && IsPages(stages[n].before[i])
    ensures c < n && |stages[c].before| == i && Tells(script, asked, c, stages[n].before[i])
  {
    RunStep(script, asked, stages, n - 1);
    var less := stages[n - 1].before;
    if i < |less| {
      assert stages[n].before[i] == less[i];
      c := EventFromCall(script, asked, stages, n - 1, i);
    } else {
      var told := less + ReportOf(asked[n - 1], script(n - 1));
      assert i < |told| && stages[n].before[i] == told[i];
      c := n - 1;
    }
  }

  lemma NothingLearned(script: nat -> Reply, asked: seq<Call>, stages: seq<Stage>, c: nat, d: nat)
    requires Run(script, asked, stages) && c < d <= |asked| && ReportOf(asked[c], script(c)) != []
    requires |stages[d].before| == |stages[c].before| + 1
    ensures NothingBetween(script, asked, c, d)
  {
    forall m | c < m < d ensures ReportOf(asked[m], script(m)) == [] {
      ToldGrows(script, asked, stages, c, m);
      if ReportOf(asked[m], script(m)) != [] {
        ToldGrows(script, asked, stages, m, d);
      }
    }
  }

  lemma ToldGrows(script: nat -> Reply, asked: seq<Call>, stages: seq<Stage>, c: nat, n: nat)
    requires Run(script, asked, stages) && c < n <= |asked| && ReportOf(asked[c], script(c)) != []
    ensures |stages[c].before| < |stages[n].before|
  {
    BeforeNext(stages[c], asked[c], script(c), stages[c + 1]);
    BeforeGrows(script, asked, stages, c + 1, n);
  }

  lemma CallsInOrder(script: nat -> Reply, asked: seq<Call>, stages: seq<Stage>, c: nat, d: nat)
    requires Run(script, asked, stages) && c <= |asked| && d <= |asked| && |stages[c].before| < |stages[d].before|
    ensures c < d
  {
    if d <= c {
      BeforeGrows(script, asked, stages, d, c);
    }
  }

  lemma {:induction false} AttemptsStay(script: nat -> Reply, asked: seq<Call>, stages: seq<Stage>, k: nat, n: nat)
    requires Run(script, asked, stages) && k < n <= |asked| && IsSend(asked[k])
    ensures stages[n].attempts != []
    decreases n
  {
    RunStep(script, asked, stages, n - 1);
    if k < n - 1 {
      AttemptsStay(script, asked, stages, k, n - 1);
    }
  }

  /** Whatever tells something comes before every attempt to send. */
  lemma SendsComeLast(script: nat -> Reply, asked: seq<Call>, stages: seq<Stage>, c: nat, k: nat)
    requires Run(script, asked, stages) && c < |asked| && k < |asked|
    requires ReportOf(asked[c], script(c)) != [] && IsSend(asked[k])
    ensures c < k
  {
    SendsTellNothing(asked[k], script(k));
    if k < c {
      NoneBefore(stages[c], asked[c], script(c), stages[c + 1]);
      AttemptsStay(script, asked, stages, k, c);
    }
  }

  lemma SendsTellNothing(call: Call, r: Reply)
    requires IsSend(call)
    ensures ReportOf(call, r) == []
  {
  }

  lemma NoneBefore(s: Stage, call: Call, r: Reply, t: Stage)
    requires Steps(s, call, r, t) && ReportOf(call, r) != []
    ensures s.attempts == []
  {
  }
}
