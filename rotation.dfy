/** The shift rotation of `hr.working.template` as functions over the records it reads
    and writes: the template pointers, the contracts' working hours and the history. */
module Rotation {
  import opened Strings
  import opened Dates
  import opened Records

  /** `list.index` finds no position for the template's current line. */
  datatype SwitchError = CurrentLineNotInTemplate(template: TemplateId)

  /** The records a rotation writes. */
  datatype Shifts = Shifts(
    templates: map<TemplateId, Template>,
    contracts: seq<Contract>,
    history: seq<HistoryRow>)

  /** The line after position `i` in a cycle of `n` lines: the successor, wrapping
      round to the first line after the last. */
  function NextIndex(i: nat, n: nat): (r: nat)
    requires i < n
    ensures r < n
    ensures i + 1 < n ==> r == i + 1
    ensures r == 0 || r == i + 1
  {
    if i == n - 1 then 0 else i + 1
  }

  /** Python's `ids.index(x)`: the first position of `x`, or nothing when it is absent. */
  function IndexOf(ids: seq<LineId>, x: LineId): (r: Option<nat>)
    ensures r.None? <==> x !in ids
    ensures r.Some? ==> r.value < |ids| && ids[r.value] == x && x !in ids[..r.value]
  {
    if |ids| == 0 then None
    else if ids[0] == x then Some(0)
    else match IndexOf(ids[1..], x)
      case None => None
      case Some(k) => Some(k + 1)
  }

  /** The lines whose `working_id` is `t`, in the order the line table is searched. */
  function TemplateLines(lines: seq<Line>, t: TemplateId): (r: seq<Line>)
    ensures |r| <= |lines|
    ensures forall l :: l in r <==> l in lines && l.template == Some(t)
  {
    if |lines| == 0 then []
    else (if lines[0].template == Some(t) then [lines[0]] else []) + TemplateLines(lines[1..], t)
  }

  function LineIds(ls: seq<Line>): (ids: seq<LineId>)
    ensures |ids| == |ls| && forall k :: 0 <= k < |ls| ==> ids[k] == ls[k].id
  {
    seq(|ls|, k requires 0 <= k < |ls| => ls[k].id)
  }

  /** Record ids are unique in a table. */
  predicate UniqueIds(ls: seq<Line>)
  {
    forall a, b :: 0 <= a < b < |ls| ==> ls[a].id != ls[b].id
  }

  /** Record ids are unique in the contract table. */
  predicate UniqueContractIds(cs: seq<Contract>)
  {
    forall a, b :: 0 <= a < b < |cs| ==> cs[a].id != cs[b].id
  }

  /** The line table is in `sequence` order, and record ids are unique in the line and
      contract tables. */
  predicate WellFormedTables(lines: seq<Line>, contracts: seq<Contract>)
  {
    SortedBySequence(lines) && UniqueIds(lines) && UniqueContractIds(contracts)
  }

  /** `cs'` holds the same contracts as `cs`, position by position, up to their
      `working_hours`. */
  predicate SameContracts(cs: seq<Contract>, cs': seq<Contract>)
  {
    |cs'| == |cs| && forall i :: 0 <= i < |cs| ==> cs'[i].id == cs[i].id && cs'[i].template == cs[i].template
  }

  /** The line table's `_order`: ascending `sequence`. */
  predicate SortedBySequence(ls: seq<Line>)
  {
    forall a, b :: 0 <= a < b < |ls| ==> ls[a].sequence <= ls[b].sequence
  }

  /** The exceptions of contract `c` under template `t`, in table order. */
  function ExceptionsFor(exceptions: seq<TemplateException>, t: TemplateId, c: ContractId): (r: seq<TemplateException>)
    ensures |r| <= |exceptions|
    ensures forall k :: 0 <= k < |r| ==> r[k].template == Some(t) && r[k].contract == Some(c)
  {
    if |exceptions| == 0 then []
    else (if exceptions[0].template == Some(t) && exceptions[0].contract == Some(c) then [exceptions[0]] else [])
         + ExceptionsFor(exceptions[1..], t, c)
  }

  /** The search keeps exactly the exceptions of template `t` and contract `c`. */
  lemma {:induction false} ExceptionsForMembers(exceptions: seq<TemplateException>, t: TemplateId, c: ContractId)
    ensures forall e :: e in ExceptionsFor(exceptions, t, c) <==>
      e in exceptions && e.template == Some(t) && e.contract == Some(c)
  {
    if |exceptions| > 0 {
      ExceptionsForMembers(exceptions[1..], t, c);
      assert exceptions == [exceptions[0]] + exceptions[1..];
    }
  }

  /** The search distributes over concatenation of the table: the kept exceptions
      stay in table order, each as often as it occurs. */
  lemma {:induction false} ExceptionsForAppend(a: seq<TemplateException>, b: seq<TemplateException>,
                                               t: TemplateId, c: ContractId)
    ensures ExceptionsFor(a + b, t, c) == ExceptionsFor(a, t, c) + ExceptionsFor(b, t, c)
    decreases |a|
  {
    if |a| > 0 {
      assert (a + b)[0] == a[0];
      assert (a + b)[1..] == a[1..] + b;
      ExceptionsForAppend(a[1..], b, t, c);
    } else {
      assert a + b == b;
    }
  }

  /** On a one-row table the search keeps the row exactly when it matches. */
  lemma ExceptionsForOne(e: TemplateException, t: TemplateId, c: ContractId)
    ensures ExceptionsFor([e], t, c) == if e.template == Some(t) && e.contract == Some(c) then [e] else []
  {
    assert [e][1..] == [];
  }

  /** Whether the exception is in force today, tested as the source does: today's text
      against the stored date texts. Under Python 2 an unset date is `False`, and every
      string compares greater than `False`. */
  predicate Active(e: TemplateException, today: DateText)
    ensures Active(e, today) ==> e.dateStop.Some? && StrLe(today, e.dateStop.value)
    ensures e.dateStart.Some? && Active(e, today) ==> StrLe(e.dateStart.value, today)
  {
    (match e.dateStart case None => true case Some(d) => StrLe(d, today))
    && (match e.dateStop case None => false case Some(d) => StrLe(today, d))
  }

  /** The scheduler written for one exception. */
  function Applied(e: TemplateException, lineScheduler: Option<SchedulerId>, today: DateText): (r: Option<SchedulerId>)
    ensures r == e.scheduler || r == lineScheduler
    ensures e.dateStop.None? ==> r == lineScheduler
  {
    if Active(e, today) then e.scheduler else lineScheduler
  }

  /** The successive `working_hours` values written to one bound contract. */
  function Writes(excs: seq<TemplateException>, lineScheduler: Option<SchedulerId>, today: DateText): (w: seq<Option<SchedulerId>>)
    ensures |w| > 0 && (|excs| > 0 ==> |w| == |excs|)
    ensures |excs| == 0 ==> w == [lineScheduler]
    ensures forall k :: 0 <= k < |w| ==>
      w[k] == lineScheduler || (k < |excs| && Active(excs[k], today) && w[k] == excs[k].scheduler)
  {
    if |excs| == 0 then [lineScheduler]
    else seq(|excs|, k requires 0 <= k < |excs| => Applied(excs[k], lineScheduler, today))
  }

  /** The history rows recording the writes `w` to contract `c`. */
  function RowsFor(t: TemplateId, c: ContractId, w: seq<Option<SchedulerId>>, today: DateText): (rows: seq<HistoryRow>)
    ensures |rows| == |w|
    ensures forall k :: 0 <= k < |w| ==> rows[k].scheduler == w[k]
    ensures forall row :: row in rows ==> row.template == t && row.contract == c && row.date == today
  {
    seq(|w|, k requires 0 <= k < |w| => HistoryRow(t, w[k], c, today))
  }

  /** One more write adds one more row, at the end. */
  lemma RowsForSnoc(t: TemplateId, c: ContractId, w: seq<Option<SchedulerId>>, x: Option<SchedulerId>, today: DateText)
    ensures RowsFor(t, c, w + [x], today) == RowsFor(t, c, w, today) + [HistoryRow(t, x, c, today)]
  {
    assert (w + [x])[|w|] == x;
  }

  function Last<T>(s: seq<T>): (x: T)
    requires |s| > 0
    ensures x in s
  {
    s[|s| - 1]
  }

  /** A contract after the rotation of `t`: the last write wins. */
  function RotatedContract(c: Contract, t: TemplateId, exceptions: seq<TemplateException>,
                           lineScheduler: Option<SchedulerId>, today: DateText): (r: Contract)
    ensures r.id == c.id && r.template == c.template
    ensures c.template != Some(t) ==> r == c
  {
    if c.template == Some(t)
    then c.(workingHours := Last(Writes(ExceptionsFor(exceptions, t, c.id), lineScheduler, today)))
    else c
  }

  /** The history rows the rotation of `t` adds for contract `c`. */
  function ContractRows(c: Contract, t: TemplateId, exceptions: seq<TemplateException>,
                        lineScheduler: Option<SchedulerId>, today: DateText): (rows: seq<HistoryRow>)
    ensures |rows| > 0 <==> c.template == Some(t)
    ensures forall row :: row in rows ==> row.template == t && row.contract == c.id && row.date == today
  {
    if c.template == Some(t)
    then RowsFor(t, c.id, Writes(ExceptionsFor(exceptions, t, c.id), lineScheduler, today), today)
    else []
  }

  function RotatedContracts(cs: seq<Contract>, t: TemplateId, exceptions: seq<TemplateException>,
                            lineScheduler: Option<SchedulerId>, today: DateText): (r: seq<Contract>)
    ensures |r| == |cs|
    ensures forall i :: 0 <= i < |cs| ==> r[i].id == cs[i].id && r[i].template == cs[i].template
    ensures forall i :: 0 <= i < |cs| && cs[i].template != Some(t) ==> r[i] == cs[i]
  {
    seq(|cs|, i requires 0 <= i < |cs| => RotatedContract(cs[i], t, exceptions, lineScheduler, today))
  }

  /** The history rows the rotation of `t` adds, contract after contract. */
  function NewRows(cs: seq<Contract>, t: TemplateId, exceptions: seq<TemplateException>,
                   lineScheduler: Option<SchedulerId>, today: DateText): (rows: seq<HistoryRow>)
    ensures forall row :: row in rows ==> row.template == t && row.date == today
  {
    if |cs| == 0 then []
    else NewRows(cs[..|cs| - 1], t, exceptions, lineScheduler, today)
         + ContractRows(cs[|cs| - 1], t, exceptions, lineScheduler, today)
  }

  /** The rows of a prefix grow by the next contract's rows. */
  lemma NewRowsSnoc(cs: seq<Contract>, i: nat, t: TemplateId, exceptions: seq<TemplateException>,
                    lineScheduler: Option<SchedulerId>, today: DateText)
    requires i < |cs|
    ensures NewRows(cs[..i + 1], t, exceptions, lineScheduler, today)
         == NewRows(cs[..i], t, exceptions, lineScheduler, today) + ContractRows(cs[i], t, exceptions, lineScheduler, today)
  {
    assert cs[..i + 1][..i] == cs[..i];
  }

  /** `cs` is `c0` with its first `i` contracts rotated and the others as they were:
      the contracts after `i` iterations of the contract loop of one rotation. */
  predicate RotatedUpTo(c0: seq<Contract>, i: nat, cs: seq<Contract>, t: TemplateId,
                        exceptions: seq<TemplateException>, lineScheduler: Option<SchedulerId>, today: DateText)
  {
    && i <= |c0| == |cs|
    && (forall k :: 0 <= k < i ==> cs[k] == RotatedContract(c0[k], t, exceptions, lineScheduler, today))
    && (forall k :: i <= k < |c0| ==> cs[k] == c0[k])
  }

  /** `h` is `h0` followed by the rows of the first `i` contracts of `c0`: the history
      after `i` iterations of the contract loop of one rotation. */
  predicate LoggedUpTo(c0: seq<Contract>, h0: seq<HistoryRow>, i: nat, h: seq<HistoryRow>, t: TemplateId,
                       exceptions: seq<TemplateException>, lineScheduler: Option<SchedulerId>, today: DateText)
    requires i <= |c0|
  {
    h == h0 + NewRows(c0[..i], t, exceptions, lineScheduler, today)
  }

  lemma LoopStart(c0: seq<Contract>, h0: seq<HistoryRow>, t: TemplateId, exceptions: seq<TemplateException>,
                  lineScheduler: Option<SchedulerId>, today: DateText)
    ensures RotatedUpTo(c0, 0, c0, t, exceptions, lineScheduler, today)
    ensures LoggedUpTo(c0, h0, 0, h0, t, exceptions, lineScheduler, today)
  {
    assert h0 + [] == h0;
  }

  /** Rotating contract `i` extends the rotated prefix by one. */
  lemma RotatedUpToStep(c0: seq<Contract>, i: nat, cs: seq<Contract>, t: TemplateId,
                        exceptions: seq<TemplateException>, lineScheduler: Option<SchedulerId>, today: DateText)
    requires RotatedUpTo(c0, i, cs, t, exceptions, lineScheduler, today) && i < |c0|
    ensures cs[i] == c0[i]
    ensures RotatedUpTo(c0, i + 1, cs[i := RotatedContract(cs[i], t, exceptions, lineScheduler, today)],
                        t, exceptions, lineScheduler, today)
  {
  }

  /** Logging the rows of contract `i` extends the logged prefix by one. */
  lemma LoggedUpToStep(c0: seq<Contract>, h0: seq<HistoryRow>, i: nat, h: seq<HistoryRow>, t: TemplateId,
                       exceptions: seq<TemplateException>, lineScheduler: Option<SchedulerId>, today: DateText)
    requires i < |c0| && LoggedUpTo(c0, h0, i, h, t, exceptions, lineScheduler, today)
    ensures LoggedUpTo(c0, h0, i + 1, h + ContractRows(c0[i], t, exceptions, lineScheduler, today),
                       t, exceptions, lineScheduler, today)
  {
    NewRowsSnoc(c0, i, t, exceptions, lineScheduler, today);
    AppendAssoc(h0, NewRows(c0[..i], t, exceptions, lineScheduler, today), ContractRows(c0[i], t, exceptions, lineScheduler, today));
  }

  lemma AppendAssoc<T>(a: seq<T>, b: seq<T>, c: seq<T>)
    ensures a + b + c == a + (b + c)
  {
  }

  /** After every contract, the loop state is the rotation's result. */
  lemma LoopEnd(c0: seq<Contract>, h0: seq<HistoryRow>, cs: seq<Contract>, h: seq<HistoryRow>, t: TemplateId,
                exceptions: seq<TemplateException>, lineScheduler: Option<SchedulerId>, today: DateText)
    requires RotatedUpTo(c0, |c0|, cs, t, exceptions, lineScheduler, today)
    requires LoggedUpTo(c0, h0, |c0|, h, t, exceptions, lineScheduler, today)
    ensures cs == RotatedContracts(c0, t, exceptions, lineScheduler, today)
    ensures h == h0 + NewRows(c0, t, exceptions, lineScheduler, today)
  {
    assert c0[..|c0|] == c0;
  }

  /** One pass of `switch_shift`'s loop body for template `t`. */
  function RotateOne(s: Shifts, lines: seq<Line>, exceptions: seq<TemplateException>,
                     t: TemplateId, today: DateText): (r: Result<Shifts, SwitchError>)
    requires t in s.templates
    ensures r.Ok? ==> r.value.templates.Keys == s.templates.Keys
    ensures r.Ok? ==> forall u :: u in s.templates && u != t ==> r.value.templates[u] == s.templates[u]
    ensures r.Ok? ==> r.value.templates[t] == s.templates[t].(currentLine := r.value.templates[t].currentLine)
    ensures r.Ok? ==> SameContracts(s.contracts, r.value.contracts)
  {
    var tmpl := s.templates[t];
    var ls := TemplateLines(lines, t);
    if |ls| == 0 || tmpl.currentLine.None? then Ok(s)
    else match IndexOf(LineIds(ls), tmpl.currentLine.value)
      case None => Err(CurrentLineNotInTemplate(t))
      case Some(i) =>
        var next := NextIndex(i, |ls|);
        Ok(Shifts(
          s.templates[t := tmpl.(currentLine := Some(ls[next].id))],
          RotatedContracts(s.contracts, t, exceptions, ls[next].scheduler, today),
          s.history + NewRows(s.contracts, t, exceptions, ls[next].scheduler, today)))
  }

  /** `switch_shift(ids)`: the templates rotated one after the other; the first error
      aborts the whole call. */
  function RotateAll(s: Shifts, lines: seq<Line>, exceptions: seq<TemplateException>,
                     ids: seq<TemplateId>, today: DateText): (r: Result<Shifts, SwitchError>)
    requires AllKnown(ids, s.templates)
    ensures r.Ok? ==> r.value.templates.Keys == s.templates.Keys
    ensures r.Ok? ==> forall u :: u in s.templates ==>
      r.value.templates[u] == s.templates[u].(currentLine := r.value.templates[u].currentLine)
    ensures r.Ok? ==> SameContracts(s.contracts, r.value.contracts)
    decreases |ids|
  {
    if |ids| == 0 then Ok(s)
    else match RotateOne(s, lines, exceptions, ids[0], today)
      case Err(e) => Err(e)
      case Ok(s') => RotateAll(s', lines, exceptions, ids[1..], today)
  }

  /** The ids below `bound` of the templates in state `st`, ascending: the search
      `_switch_shift` runs when it is called without ids. */
  function TemplatesInState(templates: map<TemplateId, Template>, bound: nat, st: State): (ids: seq<TemplateId>)
    ensures forall k :: 0 <= k < |ids| ==> ids[k] < bound && ids[k] in templates && templates[ids[k]].state == st
    ensures forall u :: u < bound && u in templates && templates[u].state == st ==> u in ids
    ensures forall a, b :: 0 <= a < b < |ids| ==> ids[a] < ids[b]
  {
    if bound == 0 then []
    else TemplatesInState(templates, bound - 1, st)
         + (if bound - 1 in templates && templates[bound - 1].state == st then [bound - 1] else [])
  }

  // ---------------------------------------------------------------------------
  // Properties of one rotation

  /** The stored text of an optional date. */
  function Stored(d: Option<Date>): (r: Option<DateText>)
    ensures r.Some? <==> d.Some?
  {
    match d case None => None case Some(x) => Some(Iso(x))
  }

  /** Comparing the date texts is comparing the dates: an exception is in force when
      today lies in the inclusive range, an unset start is no bound, and an unset stop
      keeps the exception from ever applying. */
  lemma ActiveWithinRange(e: TemplateException, start: Option<Date>, stop: Option<Date>, today: Date)
    requires e.dateStart == Stored(start) && e.dateStop == Stored(stop)
    requires Valid(today) && (start.Some? ==> Valid(start.value)) && (stop.Some? ==> Valid(stop.value))
    ensures Active(e, Iso(today)) <==>
      (start.None? || NotAfter(start.value, today)) && stop.Some? && NotAfter(today, stop.value)
  {
    if start.Some? { IsoOrder(start.value, today); }
    if stop.Some? { IsoOrder(today, stop.value); }
  }

  /** A template without lines or without a current line is left as it is: no pointer
      move, no contract write, no history row. */
  lemma RotateWithoutPointerChangesNothing(s: Shifts, lines: seq<Line>, exceptions: seq<TemplateException>,
                                           t: TemplateId, today: DateText)
    requires t in s.templates
    requires |TemplateLines(lines, t)| == 0 || s.templates[t].currentLine.None?
    ensures RotateOne(s, lines, exceptions, t, today) == Ok(s)
  {
  }

  /** A current line that is not among the template's lines makes the rotation fail. */
  lemma RotateRejectsForeignLine(s: Shifts, lines: seq<Line>, exceptions: seq<TemplateException>,
                                 t: TemplateId, today: DateText)
    requires t in s.templates
    requires |TemplateLines(lines, t)| > 0 && s.templates[t].currentLine.Some?
    requires s.templates[t].currentLine.value !in LineIds(TemplateLines(lines, t))
    ensures RotateOne(s, lines, exceptions, t, today) == Err(CurrentLineNotInTemplate(t))
  {
  }

  /** The pointer moves to the next line of the cycle, wrapping after the last one. */
  lemma RotateAdvancesPointer(s: Shifts, lines: seq<Line>, exceptions: seq<TemplateException>,
                              t: TemplateId, today: DateText, i: nat)
    requires t in s.templates
    requires i < |TemplateLines(lines, t)| && UniqueIds(TemplateLines(lines, t))
    requires s.templates[t].currentLine == Some(TemplateLines(lines, t)[i].id)
    ensures var ls := TemplateLines(lines, t);
      var r := RotateOne(s, lines, exceptions, t, today);
      && r.Ok?
      && r.value.templates[t].currentLine == Some(ls[if i == |ls| - 1 then 0 else i + 1].id)
  {
    var ls := TemplateLines(lines, t);
    IndexOfUnique(ls, i);
    var next := NextIndex(i, |ls|);
    assert next == if i == |ls| - 1 then 0 else i + 1;
    var sched := ls[next].scheduler;
    assert RotateOne(s, lines, exceptions, t, today)
        == Ok(Shifts(s.templates[t := s.templates[t].(currentLine := Some(ls[next].id))],
                     RotatedContracts(s.contracts, t, exceptions, sched, today),
                     s.history + NewRows(s.contracts, t, exceptions, sched, today)));
  }

  /** Only contracts bound to `t` are written. When the template has lines and a current
      line, contract `k` is rotated with the scheduler of the line the pointer moves to,
      its rows are logged after those of the contracts before it and before those of the
      contracts after it, and a bound contract ends with the scheduler of its last row. */
  lemma RotateWritesBoundContracts(s: Shifts, lines: seq<Line>, exceptions: seq<TemplateException>,
                                   t: TemplateId, today: DateText, k: nat)
    requires t in s.templates
    requires RotateOne(s, lines, exceptions, t, today).Ok?
    requires k < |s.contracts|
    ensures var s' := RotateOne(s, lines, exceptions, t, today).value;
      var c := s.contracts[k];
      && |s'.contracts| == |s.contracts| && s'.contracts[k].id == c.id
      && (c.template != Some(t) ==> s'.contracts[k] == c)
    ensures var ls := TemplateLines(lines, t);
      var s' := RotateOne(s, lines, exceptions, t, today).value;
      var c := s.contracts[k];
      |ls| > 0 && s.templates[t].currentLine.Some? ==>
        && IndexOf(LineIds(ls), s.templates[t].currentLine.value).Some?
        && var n := NextIndex(IndexOf(LineIds(ls), s.templates[t].currentLine.value).value, |ls|);
           var sched := ls[n].scheduler;
           && s'.templates[t].currentLine == Some(ls[n].id)
           && s'.contracts[k] == RotatedContract(c, t, exceptions, sched, today)
           && s'.history == s.history + NewRows(s.contracts[..k], t, exceptions, sched, today)
                            + ContractRows(c, t, exceptions, sched, today)
                            + NewRows(s.contracts[k + 1..], t, exceptions, sched, today)
           && (c.template == Some(t) ==>
                 s'.contracts[k].workingHours == Last(ContractRows(c, t, exceptions, sched, today)).scheduler)
  {
    var ls := TemplateLines(lines, t);
    if |ls| > 0 && s.templates[t].currentLine.Some? {
      var i := IndexOf(LineIds(ls), s.templates[t].currentLine.value).value;
      var sched := ls[NextIndex(i, |ls|)].scheduler;
      var c := s.contracts[k];
      NewRowsAround(s.contracts, k, t, exceptions, sched, today);
      var before := NewRows(s.contracts[..k], t, exceptions, sched, today);
      var mine := ContractRows(c, t, exceptions, sched, today);
      var after := NewRows(s.contracts[k + 1..], t, exceptions, sched, today);
      assert RotateOne(s, lines, exceptions, t, today).value.history
          == s.history + NewRows(s.contracts, t, exceptions, sched, today);
      AppendAssoc(s.history, before, mine);
      AppendAssoc(s.history, before + mine, after);
      if c.template == Some(t) {
        LastRowScheduler(c, t, exceptions, sched, today);
      }
    }
  }

  /** The rows of contract `k` sit between those of the contracts before and after it. */
  lemma NewRowsAround(cs: seq<Contract>, k: nat, t: TemplateId, exceptions: seq<TemplateException>,
                      lineScheduler: Option<SchedulerId>, today: DateText)
    requires k < |cs|
    ensures NewRows(cs, t, exceptions, lineScheduler, today)
         == NewRows(cs[..k], t, exceptions, lineScheduler, today)
            + ContractRows(cs[k], t, exceptions, lineScheduler, today)
            + NewRows(cs[k + 1..], t, exceptions, lineScheduler, today)
  {
    var c := cs[k];
    assert cs == cs[..k] + [c] + cs[k + 1..];
    NewRowsAppend(cs[..k] + [c], cs[k + 1..], t, exceptions, lineScheduler, today);
    NewRowsAppend(cs[..k], [c], t, exceptions, lineScheduler, today);
    assert [c][..0] == [];
    assert NewRows([c], t, exceptions, lineScheduler, today) == ContractRows(c, t, exceptions, lineScheduler, today);
  }

  /** A bound contract ends with the scheduler of its last row. */
  lemma LastRowScheduler(c: Contract, t: TemplateId, exceptions: seq<TemplateException>,
                         lineScheduler: Option<SchedulerId>, today: DateText)
    requires c.template == Some(t)
    ensures RotatedContract(c, t, exceptions, lineScheduler, today).workingHours
         == Last(ContractRows(c, t, exceptions, lineScheduler, today)).scheduler
  {
    var w := Writes(ExceptionsFor(exceptions, t, c.id), lineScheduler, today);
    assert Last(ContractRows(c, t, exceptions, lineScheduler, today)).scheduler == Last(w);
  }

  /** The rows of a concatenation are the rows of its parts, in order. */
  lemma {:induction false} NewRowsAppend(a: seq<Contract>, b: seq<Contract>, t: TemplateId,
                                         exceptions: seq<TemplateException>,
                                         lineScheduler: Option<SchedulerId>, today: DateText)
    ensures NewRows(a + b, t, exceptions, lineScheduler, today)
         == NewRows(a, t, exceptions, lineScheduler, today) + NewRows(b, t, exceptions, lineScheduler, today)
    decreases |b|
  {
    if |b| == 0 {
      assert a + b == a;
    } else {
      var b' := b[..|b| - 1];
      assert (a + b)[..|a + b| - 1] == a + b';
      assert (a + b)[|a + b| - 1] == b[|b| - 1];
      NewRowsAppend(a, b', t, exceptions, lineScheduler, today);
      AppendAssoc(NewRows(a, t, exceptions, lineScheduler, today), NewRows(b', t, exceptions, lineScheduler, today),
                  ContractRows(b[|b| - 1], t, exceptions, lineScheduler, today));
    }
  }

  /** The rows one bound contract receives: a single row carrying the line's scheduler
      when it has no exception, otherwise one row per exception in exception order,
      carrying the exception's scheduler when it is in force and the line's otherwise.
      Its final `working_hours` is the scheduler of its last row. */
  lemma BoundContractRows(c: Contract, t: TemplateId, exceptions: seq<TemplateException>,
                          lineScheduler: Option<SchedulerId>, today: DateText)
    requires c.template == Some(t)
    ensures var excs := ExceptionsFor(exceptions, t, c.id);
      var rows := ContractRows(c, t, exceptions, lineScheduler, today);
      && (|excs| == 0 ==> rows == [HistoryRow(t, lineScheduler, c.id, today)])
      && (|excs| > 0 ==> |rows| == |excs|)
      && (forall k :: 0 <= k < |excs| ==> rows[k] == HistoryRow(t,
            if Active(excs[k], today) then excs[k].scheduler else lineScheduler, c.id, today))
      && RotatedContract(c, t, exceptions, lineScheduler, today).workingHours == rows[|rows| - 1].scheduler
  {
  }

  /** `row` records a write of the rotation of `t` today to one of the contracts `cs`
      bound to `t`. */
  predicate RecordsRotation(row: HistoryRow, cs: seq<Contract>, t: TemplateId, today: DateText)
  {
    row.template == t && row.date == today
    && exists k :: 0 <= k < |cs| && cs[k].template == Some(t) && cs[k].id == row.contract
  }

  /** Every row the rotation of `t` adds names `t`, today and a contract bound to `t`,
      and there is at least one row per bound contract. */
  lemma {:induction false} NewRowsShape(cs: seq<Contract>, t: TemplateId, exceptions: seq<TemplateException>,
                                        lineScheduler: Option<SchedulerId>, today: DateText)
    ensures forall row :: row in NewRows(cs, t, exceptions, lineScheduler, today) ==> RecordsRotation(row, cs, t, today)
    ensures |NewRows(cs, t, exceptions, lineScheduler, today)| >= |BoundContracts(cs, t)|
  {
    if |cs| > 0 {
      var init, c := cs[..|cs| - 1], cs[|cs| - 1];
      assert cs == init + [c];
      NewRowsShape(init, t, exceptions, lineScheduler, today);
      var old_rows := NewRows(init, t, exceptions, lineScheduler, today);
      var rows := ContractRows(c, t, exceptions, lineScheduler, today);
      assert NewRows(cs, t, exceptions, lineScheduler, today) == old_rows + rows;
      forall row | row in old_rows ensures RecordsRotation(row, cs, t, today) {
        assert RecordsRotation(row, init, t, today);
        var k :| 0 <= k < |init| && init[k].template == Some(t) && init[k].id == row.contract;
        assert cs[k] == init[k];
      }
      forall row | row in rows ensures RecordsRotation(row, cs, t, today) {
        assert cs[|cs| - 1] == c;
      }
      BoundContractsAppend(init, [c], t);
      assert |rows| >= |BoundContracts([c], t)|;
    }
  }

  /** The contracts of `cs` bound to `t`. */
  function BoundContracts(cs: seq<Contract>, t: TemplateId): (r: seq<Contract>)
    ensures |r| <= |cs|
  {
    if |cs| == 0 then []
    else (if cs[0].template == Some(t) then [cs[0]] else []) + BoundContracts(cs[1..], t)
  }

  lemma {:induction false} BoundContractsAppend(a: seq<Contract>, b: seq<Contract>, t: TemplateId)
    ensures BoundContracts(a + b, t) == BoundContracts(a, t) + BoundContracts(b, t)
  {
    if |a| > 0 {
      assert (a + b)[1..] == a[1..] + b;
      BoundContractsAppend(a[1..], b, t);
    } else {
      assert a + b == b;
    }
  }

  /** History only grows: the old rows stay as they were and every new row records
      the rotated template, today's date and a contract bound to that template. */
  lemma RotateAppendsHistory(s: Shifts, lines: seq<Line>, exceptions: seq<TemplateException>,
                             t: TemplateId, today: DateText)
    requires t in s.templates
    requires RotateOne(s, lines, exceptions, t, today).Ok?
    ensures var h := RotateOne(s, lines, exceptions, t, today).value.history;
      && |h| >= |s.history| && h[..|s.history|] == s.history
      && forall k :: |s.history| <= k < |h| ==> RecordsRotation(h[k], s.contracts, t, today)
  {
    var h := RotateOne(s, lines, exceptions, t, today).value.history;
    var ls := TemplateLines(lines, t);
    if |ls| > 0 && s.templates[t].currentLine.Some? {
      var i := IndexOf(LineIds(ls), s.templates[t].currentLine.value).value;
      var sched := ls[NextIndex(i, |ls|)].scheduler;
      var rows := NewRows(s.contracts, t, exceptions, sched, today);
      assert h == s.history + rows;
      NewRowsShape(s.contracts, t, exceptions, sched, today);
      AppendParts(s.history, rows);
      forall k | |s.history| <= k < |h| ensures RecordsRotation(h[k], s.contracts, t, today) {
        assert h[k] in rows;
      }
    } else {
      assert h == s.history;
    }
  }

  /** The two parts of a concatenation. */
  lemma AppendParts<T>(a: seq<T>, b: seq<T>)
    ensures (a + b)[..|a|] == a
    ensures forall k :: |a| <= k < |a + b| ==> (a + b)[k] == b[k - |a|]
  {
  }

  // ---------------------------------------------------------------------------
  // Line order and the cycle

  /** Searching the template's lines keeps the table's `sequence` order. */
  lemma {:induction false} TemplateLinesSorted(lines: seq<Line>, t: TemplateId)
    requires SortedBySequence(lines)
    ensures SortedBySequence(TemplateLines(lines, t))
  {
    if |lines| > 0 {
      TemplateLinesSorted(lines[1..], t);
      var rest := TemplateLines(lines[1..], t);
      forall l | l in rest ensures lines[0].sequence <= l.sequence {
        var b :| 0 <= b < |lines[1..]| && lines[1..][b] == l;
        assert lines[b + 1] == l;
      }
    }
  }

  /** Searching the template's lines keeps record ids unique. */
  lemma {:induction false} TemplateLinesUnique(lines: seq<Line>, t: TemplateId)
    requires UniqueIds(lines)
    ensures UniqueIds(TemplateLines(lines, t))
  {
    if |lines| > 0 {
      TemplateLinesUnique(lines[1..], t);
      var rest := TemplateLines(lines[1..], t);
      forall l | l in rest ensures lines[0].id != l.id {
        var b :| 0 <= b < |lines[1..]| && lines[1..][b] == l;
        assert lines[b + 1] == l;
      }
    }
  }

  /** With unique ids, `index` finds a line at its own position. */
  lemma IndexOfUnique(ls: seq<Line>, i: nat)
    requires i < |ls| && UniqueIds(ls)
    ensures IndexOf(LineIds(ls), ls[i].id) == Some(i)
  {
    var ids := LineIds(ls);
    assert ids[i] == ls[i].id;
    forall j | 0 <= j < |ids| && j != i
      ensures ids[j] != ids[i]
    {
      assert ids[j] == ls[j].id;
    }
  }

  /** `k` steps of `NextIndex` from position `i`. */
  function Advance(i: nat, n: nat, k: nat): (r: nat)
    requires i < n
    ensures r < n
    decreases k
  {
    if k == 0 then i else Advance(NextIndex(i, n), n, k - 1)
  }

  lemma {:induction false} AdvanceSplit(i: nat, n: nat, a: nat, b: nat)
    requires i < n
    ensures Advance(i, n, a + b) == Advance(Advance(i, n, a), n, b)
    decreases a
  {
    if a > 0 {
      AdvanceSplit(NextIndex(i, n), n, a - 1, b);
    }
  }

  lemma {:induction false} AdvanceWithoutWrap(i: nat, n: nat, k: nat)
    requires i + k < n
    ensures Advance(i, n, k) == i + k
    decreases k
  {
    if k > 0 {
      AdvanceWithoutWrap(i + 1, n, k - 1);
    }
  }

  /** `n` steps around a cycle of `n` lines lead back to the start. */
  lemma AdvanceFullCycle(i: nat, n: nat)
    requires i < n
    ensures Advance(i, n, n) == i
  {
    AdvanceWithoutWrap(i, n, n - 1 - i);
    AdvanceSplit(i, n, n - 1 - i, 1);
    assert Advance(n - 1, n, 1) == 0;
    AdvanceWithoutWrap(0, n, i);
    AdvanceSplit(i, n, n - i, i);
  }

  function Repeat(t: TemplateId, k: nat): (ids: seq<TemplateId>)
  {
    seq(k, _ => t)
  }

  /** `k` rotations of `t` succeed and move its pointer `k` steps along the cycle. */
  lemma {:induction false} RotateRepeatedly(s: Shifts, lines: seq<Line>, exceptions: seq<TemplateException>,
                                            t: TemplateId, today: DateText, i: nat, k: nat)
    requires t in s.templates
    requires i < |TemplateLines(lines, t)| && UniqueIds(TemplateLines(lines, t))
    requires s.templates[t].currentLine == Some(TemplateLines(lines, t)[i].id)
    ensures AllKnown(Repeat(t, k), s.templates)
    ensures var r := RotateAll(s, lines, exceptions, Repeat(t, k), today);
      && r.Ok?
      && r.value.templates[t].currentLine == Some(TemplateLines(lines, t)[Advance(i, |TemplateLines(lines, t)|, k)].id)
    decreases k
  {
    var ls := TemplateLines(lines, t);
    if k > 0 {
      RotateAdvancesPointer(s, lines, exceptions, t, today, i);
      var s1 := RotateOne(s, lines, exceptions, t, today).value;
      var i1 := NextIndex(i, |ls|);
      assert s1.templates[t].currentLine == Some(ls[i1].id);
      assert Repeat(t, k)[0] == t && Repeat(t, k)[1..] == Repeat(t, k - 1);
      RotateAllStep(s, lines, exceptions, Repeat(t, k), today);
      RotateRepeatedly(s1, lines, exceptions, t, today, i1, k - 1);
      var r1 := RotateAll(s1, lines, exceptions, Repeat(t, k - 1), today);
      assert RotateAll(s, lines, exceptions, Repeat(t, k), today) == r1;
      assert Advance(i, |ls|, k) == Advance(i1, |ls|, k - 1);
    } else {
      assert Repeat(t, k) == [];
    }
  }

  /** A successful first rotation hands its records to the rest of the call. */
  lemma RotateAllStep(s: Shifts, lines: seq<Line>, exceptions: seq<TemplateException>,
                      ids: seq<TemplateId>, today: DateText)
    requires |ids| > 0 && AllKnown(ids, s.templates)
    requires RotateOne(s, lines, exceptions, ids[0], today).Ok?
    ensures AllKnown(ids[1..], RotateOne(s, lines, exceptions, ids[0], today).value.templates)
    ensures RotateAll(s, lines, exceptions, ids, today)
         == RotateAll(RotateOne(s, lines, exceptions, ids[0], today).value, lines, exceptions, ids[1..], today)
  {
  }

  /** As many rotations as the template has lines bring its pointer back to where it
      started. */
  lemma CycleReturnsPointer(s: Shifts, lines: seq<Line>, exceptions: seq<TemplateException>,
                            t: TemplateId, today: DateText)
    requires t in s.templates && UniqueIds(lines)
    requires s.templates[t].currentLine.Some?
    requires s.templates[t].currentLine.value in LineIds(TemplateLines(lines, t))
    ensures AllKnown(Repeat(t, |TemplateLines(lines, t)|), s.templates)
    ensures var r := RotateAll(s, lines, exceptions, Repeat(t, |TemplateLines(lines, t)|), today);
      r.Ok? && r.value.templates[t].currentLine == s.templates[t].currentLine
  {
    var ls := TemplateLines(lines, t);
    TemplateLinesUnique(lines, t);
    var i :| 0 <= i < |ls| && LineIds(ls)[i] == s.templates[t].currentLine.value;
    RotateRepeatedly(s, lines, exceptions, t, today, i, |ls|);
    AdvanceFullCycle(i, |ls|);
  }
}
