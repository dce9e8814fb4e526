/** `hr.working.template` and the records around it, held as tables that the
    methods update in place, as the module's methods do through the record store. */
module WorkingTemplate {
  import opened Records
  import opened Rotation
  import opened Lifecycle

  class TemplateStore {
    var templates: map<TemplateId, Template>
    var nextTemplateId: TemplateId
    var lines: seq<Line>                    // in the table's `sequence` order
    var contracts: seq<Contract>            // in the table's search order
    var exceptions: seq<TemplateException>  // in the table's search order
    var history: seq<HistoryRow>
    var crons: map<CronId, Cron>
    var nextCronId: CronId

    /** Fresh ids lie above every stored one, and a template's job exists. */
    ghost predicate Valid()
      reads this
    {
      && (forall t :: t in templates ==> t < nextTemplateId)
      && Consistent(templates, Jobs(crons, nextCronId))
    }

    /** The line table is in `sequence` order and record ids are unique in the line and
        contract tables. Only a rotation writes to these tables; the lifecycle methods
        leave them untouched. */
    ghost predicate TablesValid()
      reads this
    {
      WellFormedTables(lines, contracts)
    }

    /** The records a rotation writes. */
    function ShiftRecords(): Shifts
      reads this
    {
      Shifts(templates, contracts, history)
    }

    /** The job table. */
    function JobTable(): Jobs
      reads this
    {
      Jobs(crons, nextCronId)
    }

    /** A store over existing lines, contracts and exceptions, with no template yet. */
    constructor (lines: seq<Line>, contracts: seq<Contract>, exceptions: seq<TemplateException>)
      requires WellFormedTables(lines, contracts)
      ensures Valid() && TablesValid()
      ensures this.lines == lines && this.contracts == contracts && this.exceptions == exceptions
      ensures templates == map[] && history == [] && crons == map[]
    {
      this.lines, this.contracts, this.exceptions := lines, contracts, exceptions;
      templates, nextTemplateId := map[], 1;
      history := [];
      crons, nextCronId := map[], 1;
    }

    /** `hr.working.template.history.create_record_history`: appends one row and returns
        its id. */
    method CreateRecordHistory(row: HistoryRow) returns (id: nat)
      modifies this`history
      ensures history == old(history) + [row]
      ensures id == |history|
    {
      history := history + [row];
      id := |history|;
    }

    /** `_create_cron`: a new inactive job, repeating every period with unlimited calls,
        that runs `_switch_shift` on `ids`. */
    method CreateCron(ids: seq<TemplateId>, period: Option<Period>) returns (id: CronId)
      requires Valid() && |ids| > 0
      modifies this`crons, this`nextCronId
      ensures Valid()
      ensures id == old(nextCronId) && id !in old(crons)
      ensures crons == old(crons)[id := NewCron(ids, period)] && nextCronId == id + 1
      ensures !crons[id].active && crons[id].intervalNumber == 1 && crons[id].numberCall == -1
      ensures crons[id].procedure == "_switch_shift" && crons[id].args == ids && crons[id].intervalType == period
    {
      id := nextCronId;
      crons := crons[id := NewCron(ids, period)];
      nextCronId := nextCronId + 1;
    }

    /** `create`: a template, in `draft` unless the values say otherwise, linked to a
        fresh inactive job that rotates it. */
    method Create(vals: TemplateValues) returns (id: TemplateId)
      requires Valid()
      modifies this`templates, this`nextTemplateId, this`crons, this`nextCronId
      ensures Valid()
      ensures id !in old(templates) && old(nextCronId) !in old(crons)
      ensures templates == old(templates)[id := Template(vals.name,
        if vals.state.Some? then vals.state.value else Draft, vals.currentLine, Some(old(nextCronId)))]
      ensures crons == old(crons)[old(nextCronId) := NewCron([id], vals.intervalType)]
      ensures !crons[old(nextCronId)].active && crons[old(nextCronId)].args == [id]
    {
      id := nextTemplateId;
      nextTemplateId := nextTemplateId + 1;
      var st := if vals.state.Some? then vals.state.value else Draft;
      templates := templates[id := Template(vals.name, st, vals.currentLine, None)];
      var job := CreateCron([id], vals.intervalType);
      templates := templates[id := templates[id].(cron := Some(job))];
    }

    /** `_update_cron`: activates, deactivates or creates the template's job according
        to the new state, and returns `True`, `False`, `None` or the new job's id. */
    method UpdateCron(ids: seq<TemplateId>, cron: Option<CronId>, period: Option<Period>, st: State)
      returns (r: UpdateResult)
      requires Valid()
      requires cron.Some? ==> cron.value in crons
      requires cron.None? && st == Draft ==> |ids| > 0
      modifies this`crons, this`nextCronId
      ensures Valid()
      ensures (JobTable(), r) == UpdateCronEffect(old(JobTable()), ids, cron, period, st)
    {
      if cron.Some? && st == Done {
        crons := crons[cron.value := crons[cron.value].(active := true)];
        return ReturnedTrue;
      } else if cron.None? && st == Draft {
        var job := CreateCron(ids, period);
        return ReturnedJob(job);
      } else if cron.Some? && st == Draft {
        crons := crons[cron.value := crons[cron.value].(active := false)];
        return ReturnedFalse;
      } else if cron.Some? && st == Cancel {
        crons := crons[cron.value := crons[cron.value].(active := false)];
        return ReturnedTrue;
      }
      return ReturnedNone;
    }

    /** The loop shared by `action_done` and `action_cancel`: each template's state is
        written, then its job updated. */
    method WriteStateAndJobs(ids: seq<TemplateId>, st: State)
      requires Valid() && AllKnown(ids, templates) && st != Draft
      modifies this`templates, this`crons, this`nextCronId
      ensures Valid()
      ensures (templates, JobTable()) == SetStateAll(old(templates), old(JobTable()), ids, ids, st)
    {
      var k := 0;
      while k < |ids|
        invariant 0 <= k <= |ids|
        invariant Valid() && AllKnown(ids, templates)
        invariant SetStateAll(old(templates), old(JobTable()), ids, ids, st)
               == SetStateAll(templates, JobTable(), ids[k..], ids, st)
      {
        SetStateNext(ids, k, st);
        k := k + 1;
      }
    }

    /** Iteration `k` of the done/cancel loop, seen from the loop: what remains of the
        call after it is the rest of `ids` from the new state. */
    method SetStateNext(ids: seq<TemplateId>, k: nat, st: State)
      requires Valid() && AllKnown(ids, templates) && k < |ids| && st != Draft
      modifies this`templates, this`crons, this`nextCronId
      ensures Valid() && AllKnown(ids, templates)
      ensures SetStateAll(old(templates), old(JobTable()), ids[k..], ids, st)
           == SetStateAll(templates, JobTable(), ids[k + 1..], ids, st)
    {
      ghost var t0, j0 := templates, JobTable();
      SetStateOne(ids[k], ids, st);
      assert ids[k..][0] == ids[k];
      SetStateAllStep(t0, j0, ids[k..], ids, st, templates, JobTable());
      assert ids[k..][1..] == ids[k + 1..];
    }

    /** One iteration of `action_done` / `action_cancel`: the state is written, then the
        template's job is updated. */
    method SetStateOne(t: TemplateId, ids: seq<TemplateId>, st: State)
      requires Valid() && t in templates && st != Draft
      modifies this`templates, this`crons, this`nextCronId
      ensures Valid()
      ensures (templates, JobTable()) == SetStateStep(old(templates), old(JobTable()), t, ids, st)
    {
      var tmpl := templates[t];
      templates := templates[t := tmpl.(state := st)];
      ConsistentKeepsJobs(old(templates), templates, JobTable());
      var _ := UpdateCron(ids, tmpl.cron, PeriodOf(tmpl, crons), st);
    }

    /** `action_done`. */
    method ActionDone(ids: seq<TemplateId>)
      requires Valid() && AllKnown(ids, templates)
      modifies this`templates, this`crons, this`nextCronId
      ensures Valid()
      ensures (templates, JobTable()) == SetStateAll(old(templates), old(JobTable()), ids, ids, Done)
    {
      WriteStateAndJobs(ids, Done);
    }

    /** `action_cancel`. */
    method ActionCancel(ids: seq<TemplateId>)
      requires Valid() && AllKnown(ids, templates)
      modifies this`templates, this`crons, this`nextCronId
      ensures Valid()
      ensures (templates, JobTable()) == SetStateAll(old(templates), old(JobTable()), ids, ids, Cancel)
    {
      WriteStateAndJobs(ids, Cancel);
    }

    /** `action_draft` as written: template after template, the job is updated first,
        then the template gets state `draft` and, once any iteration has created a job,
        that job's id. */
    method ActionDraft(ids: seq<TemplateId>)
      requires Valid() && AllKnown(ids, templates)
      modifies this`templates, this`crons, this`nextCronId
      ensures Valid()
      ensures (templates, JobTable()) == DraftAll(old(templates), old(JobTable()), ids, ids, None)
    {
      var carried: Option<CronId> := None;  // the `cron_id` entry of the shared dictionary
      var k := 0;
      while k < |ids|
        invariant 0 <= k <= |ids|
        invariant Valid() && AllKnown(ids, templates)
        invariant carried.Some? ==> carried.value in crons
        invariant DraftAll(old(templates), old(JobTable()), ids, ids, None)
               == DraftAll(templates, JobTable(), ids[k..], ids, carried)
      {
        carried := DraftNext(ids, k, carried);
        k := k + 1;
      }
    }

    /** Iteration `k` of `action_draft`, seen from the loop: what remains of the call
        after it is the rest of `ids` from the new state. */
    method DraftNext(ids: seq<TemplateId>, k: nat, carried: Option<CronId>) returns (carried': Option<CronId>)
      requires Valid() && AllKnown(ids, templates) && k < |ids|
      requires carried.Some? ==> carried.value in crons
      modifies this`templates, this`crons, this`nextCronId
      ensures Valid() && AllKnown(ids, templates)
      ensures carried'.Some? ==> carried'.value in crons
      ensures DraftAll(old(templates), old(JobTable()), ids[k..], ids, carried)
           == DraftAll(templates, JobTable(), ids[k + 1..], ids, carried')
    {
      ghost var t0, j0 := templates, JobTable();
      carried' := DraftOne(ids[k], ids, carried);
      assert ids[k..][0] == ids[k];
      DraftAllStep(t0, j0, ids[k..], ids, carried, templates, JobTable(), carried');
      assert ids[k..][1..] == ids[k + 1..];
    }

    /** One iteration of `action_draft`: `carried` is the job id held in the shared
        dictionary before the iteration, `carried'` the one after it. */
    method DraftOne(t: TemplateId, ids: seq<TemplateId>, carried: Option<CronId>) returns (carried': Option<CronId>)
      requires Valid() && t in templates && |ids| > 0
      requires carried.Some? ==> carried.value in crons
      modifies this`templates, this`crons, this`nextCronId
      ensures Valid()
      ensures (templates, JobTable(), carried') == DraftStep(old(templates), old(JobTable()), t, ids, carried)
    {
      var tmpl := templates[t];
      var r := UpdateCron(ids, tmpl.cron, PeriodOf(tmpl, crons), Draft);
      carried' := if r.ReturnedJob? then Some(r.job) else carried;
      var tmpl' := if carried'.Some? then tmpl.(state := Draft, cron := carried') else tmpl.(state := Draft);
      templates := templates[t := tmpl'];
    }

    /** The contract part of one iteration of `switch_shift`'s template loop: contract
        `i`, when it is bound to template `t`, receives one write per exception (the
        exception's scheduler while it is in force, the line's otherwise), or the line's
        scheduler when it has no exception; every write is logged. */
    method WriteContract(i: nat, t: TemplateId, lineScheduler: Option<SchedulerId>, today: DateText)
      requires i < |contracts|
      modifies this`contracts, this`history
      ensures contracts == old(contracts)[i := RotatedContract(old(contracts[i]), t, exceptions, lineScheduler, today)]
      ensures history == old(history) + ContractRows(old(contracts[i]), t, exceptions, lineScheduler, today)
    {
      var c := contracts[i];
      if c.template != Some(t) {
        return;
      }
      var excs := ExceptionsFor(exceptions, t, c.id);
      if |excs| > 0 {
        ApplyExceptions(i, t, excs, lineScheduler, today);
      } else {
        contracts := contracts[i := c.(workingHours := lineScheduler)];
        var _ := CreateRecordHistory(HistoryRow(t, lineScheduler, c.id, today));
      }
    }

    /** The exception loop for contract `i`: one write and one history row per
        exception, in order, so that the last exception decides. */
    method ApplyExceptions(i: nat, t: TemplateId, excs: seq<TemplateException>,
                           lineScheduler: Option<SchedulerId>, today: DateText)
      requires i < |contracts| && |excs| > 0
      modifies this`contracts, this`history
      ensures contracts == old(contracts)[i := old(contracts[i]).(workingHours := Last(Writes(excs, lineScheduler, today)))]
      ensures history == old(history) + RowsFor(t, old(contracts[i]).id, Writes(excs, lineScheduler, today), today)
    {
      var c := contracts[i];
      ghost var w := Writes(excs, lineScheduler, today);
      var j := 0;
      while j < |excs|
        invariant 0 <= j <= |excs| == |w|
        invariant |contracts| == |old(contracts)|
        invariant contracts == old(contracts)[i := contracts[i]]
        invariant contracts[i] == if j == 0 then c else c.(workingHours := w[j - 1])
        invariant history == old(history) + RowsFor(t, c.id, w[..j], today)
      {
        var applied := Applied(excs[j], lineScheduler, today);
        contracts := contracts[i := contracts[i].(workingHours := applied)];
        var _ := CreateRecordHistory(HistoryRow(t, applied, c.id, today));
        assert w[..j + 1] == w[..j] + [applied];
        RowsForSnoc(t, c.id, w[..j], applied, today);
        j := j + 1;
      }
      assert w[..|excs|] == w;
    }

    /** One iteration of `switch_shift`'s template loop: move the pointer to the next
        line and write every contract bound to the template. */
    method RotateTemplate(t: TemplateId, today: DateText) returns (err: Option<SwitchError>)
      requires t in templates
      modifies this`templates, this`contracts, this`history
      ensures var r := RotateOne(old(ShiftRecords()), lines, exceptions, t, today);
        if r.Ok? then err == None && ShiftRecords() == r.value
        else err == Some(r.error) && ShiftRecords() == old(ShiftRecords())
      ensures templates.Keys == old(templates).Keys
      ensures forall u :: u in old(templates) ==> templates[u].cron == old(templates)[u].cron
    {
      var tmpl := templates[t];
      var ls := TemplateLines(lines, t);
      if |ls| == 0 || tmpl.currentLine.None? {
        return None;
      }
      var found := IndexOf(LineIds(ls), tmpl.currentLine.value);
      if found.None? {
        return Some(CurrentLineNotInTemplate(t));
      }
      var next := NextIndex(found.value, |ls|);
      templates := templates[t := tmpl.(currentLine := Some(ls[next].id))];
      WriteContracts(t, ls[next].scheduler, today);
      return None;
    }

    /** The contract loop of one rotation: every contract bound to `t` is written. */
    method WriteContracts(t: TemplateId, lineScheduler: Option<SchedulerId>, today: DateText)
      modifies this`contracts, this`history
      ensures contracts == RotatedContracts(old(contracts), t, exceptions, lineScheduler, today)
      ensures history == old(history) + NewRows(old(contracts), t, exceptions, lineScheduler, today)
    {
      ghost var c0, h0 := contracts, history;
      LoopStart(c0, h0, t, exceptions, lineScheduler, today);
      var i := 0;
      while i < |contracts|
        invariant i <= |c0| == |contracts|
        invariant RotatedUpTo(c0, i, contracts, t, exceptions, lineScheduler, today)
        invariant LoggedUpTo(c0, h0, i, history, t, exceptions, lineScheduler, today)
      {
        RotatedUpToStep(c0, i, contracts, t, exceptions, lineScheduler, today);
        LoggedUpToStep(c0, h0, i, history, t, exceptions, lineScheduler, today);
        WriteContract(i, t, lineScheduler, today);
        i := i + 1;
      }
      LoopEnd(c0, h0, contracts, history, t, exceptions, lineScheduler, today);
    }

    /** `switch_shift`: rotates the templates `ids` in order. An error aborts the call and
        the framework rolls its transaction back. */
    method SwitchShift(ids: seq<TemplateId>, today: DateText) returns (err: Option<SwitchError>)
      requires Valid() && TablesValid() && AllKnown(ids, templates)
      modifies this`templates, this`contracts, this`history
      ensures Valid() && TablesValid()
      ensures var r := RotateAll(old(ShiftRecords()), lines, exceptions, ids, today);
        if r.Ok? then err == None && ShiftRecords() == r.value
        else err == Some(r.error) && ShiftRecords() == old(ShiftRecords())
    {
      var t0, c0, h0 := templates, contracts, history;
      err := RotateEach(ids, today);
      ConsistentKeepsJobs(t0, templates, JobTable());
      if err.Some? {
        templates, contracts, history := t0, c0, h0;
      }
    }

    /** The loop of `switch_shift`, up to the first error; what an error leaves behind
        is rolled back by the caller. */
    method RotateEach(ids: seq<TemplateId>, today: DateText) returns (err: Option<SwitchError>)
      requires AllKnown(ids, templates)
      modifies this`templates, this`contracts, this`history
      ensures templates.Keys == old(templates).Keys
      ensures forall u :: u in old(templates) ==> templates[u].cron == old(templates)[u].cron
      ensures var r := RotateAll(old(ShiftRecords()), lines, exceptions, ids, today);
        if r.Ok? then err == None && ShiftRecords() == r.value else err == Some(r.error)
    {
      ghost var s0 := ShiftRecords();
      var k := 0;
      while k < |ids|
        invariant 0 <= k <= |ids|
        invariant templates.Keys == s0.templates.Keys
        invariant forall u :: u in s0.templates ==> templates[u].cron == s0.templates[u].cron
        invariant RotateAll(s0, lines, exceptions, ids, today)
               == RotateAll(ShiftRecords(), lines, exceptions, ids[k..], today)
      {
        ghost var before := ShiftRecords();
        ghost var rest := ids[k..];
        assert rest[0] == ids[k] && rest[1..] == ids[k + 1..];
        err := RotateTemplate(ids[k], today);
        if err.Some? {
          assert RotateAll(before, lines, exceptions, rest, today) == Err(err.value);
          return;
        }
        RotateAllStep(before, lines, exceptions, rest, today);
        k := k + 1;
      }
      return None;
    }

    /** `_switch_shift`, the job's entry point: without ids it rotates the templates in
        state `done`, in id order. */
    method SwitchShiftJob(ids: seq<TemplateId>, today: DateText) returns (err: Option<SwitchError>)
      requires Valid() && TablesValid() && AllKnown(ids, templates)
      modifies this`templates, this`contracts, this`history
      ensures Valid() && TablesValid()
      ensures var targets := if |ids| == 0 then TemplatesInState(old(templates), old(nextTemplateId), Done) else ids;
        && AllKnown(targets, old(templates))
        && var r := RotateAll(old(ShiftRecords()), lines, exceptions, targets, today);
           if r.Ok? then err == None && ShiftRecords() == r.value
           else err == Some(r.error) && ShiftRecords() == old(ShiftRecords())
    {
      var targets := ids;
      if |ids| == 0 {
        targets := TemplatesInState(templates, nextTemplateId, Done);
      }
      err := SwitchShift(targets, today);
    }
  }
}
