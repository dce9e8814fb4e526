/** The template lifecycle and the scheduled job (`ir.cron`) behind each template, as
    functions over the templates and the job table. */
module Lifecycle {
  import opened Strings
  import opened Records

  /** What `_update_cron` returns: `True`, `False`, `None` or the id of a job it created. */
  datatype UpdateResult = ReturnedTrue | ReturnedFalse | ReturnedNone | ReturnedJob(job: CronId)

  /** Python truth of the returned value. */
  predicate Truthy(r: UpdateResult)
  {
    r.ReturnedTrue? || (r.ReturnedJob? && r.job != 0)
  }

  /** The job table and the id the next created job receives. */
  datatype Jobs = Jobs(crons: map<CronId, Cron>, nextId: CronId)

  /** Job ids are positive and below `nextId`, and every job a template points to exists. */
  predicate Consistent(templates: map<TemplateId, Template>, j: Jobs)
  {
    && j.nextId >= 1
    && (forall c :: c in j.crons ==> 1 <= c < j.nextId)
    && (forall t :: t in templates && templates[t].cron.Some? ==> templates[t].cron.value in j.crons)
  }

  /** Consistency depends on the templates' jobs only, not on their other fields. */
  lemma ConsistentKeepsJobs(templates: map<TemplateId, Template>, templates': map<TemplateId, Template>, j: Jobs)
    requires Consistent(templates, j) && templates'.Keys == templates.Keys
    requires forall t :: t in templates ==> templates'[t].cron == templates[t].cron
    ensures Consistent(templates', j)
  {
  }

  /** The record `_create_cron` writes for the template ids `ids`. */
  function NewCron(ids: seq<TemplateId>, period: Option<Period>): (c: Cron)
    requires |ids| > 0
    ensures !c.active && c.intervalNumber == 1 && c.numberCall == -1 && c.doAll
    ensures c.model == "hr.working.template" && c.procedure == "_switch_shift"
    ensures c.args == ids && c.intervalType == period
  {
    Cron("Working Shift Switch " + Decimal(ids[0]), false, 1, -1, true,
         "hr.working.template", "_switch_shift", ids, period)
  }

  /** `related_interval_type`: the period of the template's job, if it has one. */
  function PeriodOf(tmpl: Template, crons: map<CronId, Cron>): (p: Option<Period>)
    ensures p.Some? ==> tmpl.cron.Some? && tmpl.cron.value in crons && crons[tmpl.cron.value].intervalType == p
    ensures tmpl.cron.Some? && tmpl.cron.value in crons ==> p == crons[tmpl.cron.value].intervalType
  {
    if tmpl.cron.Some? && tmpl.cron.value in crons then crons[tmpl.cron.value].intervalType else None
  }

  /** `_update_cron`: the job table afterwards and the value returned. */
  function UpdateCronEffect(j: Jobs, ids: seq<TemplateId>, cron: Option<CronId>, period: Option<Period>,
                            st: State): (r: (Jobs, UpdateResult))
    requires cron.Some? ==> cron.value in j.crons
    requires cron.None? && st == Draft ==> |ids| > 0
    ensures j.crons.Keys <= r.0.crons.Keys && r.0.nextId >= j.nextId
    ensures r.1.ReturnedNone? ==> r.0 == j
  {
    if cron.Some? && st == Done then
      (j.(crons := j.crons[cron.value := j.crons[cron.value].(active := true)]), ReturnedTrue)
    else if cron.None? && st == Draft then
      (Jobs(j.crons[j.nextId := NewCron(ids, period)], j.nextId + 1), ReturnedJob(j.nextId))
    else if cron.Some? && st == Draft then
      (j.(crons := j.crons[cron.value := j.crons[cron.value].(active := false)]), ReturnedFalse)
    else if cron.Some? && st == Cancel then
      (j.(crons := j.crons[cron.value := j.crons[cron.value].(active := false)]), ReturnedTrue)
    else
      (j, ReturnedNone)
  }

  /** One iteration of `action_done` / `action_cancel`: the template takes the new state
      and then its job is updated. */
  function SetStateStep(templates: map<TemplateId, Template>, j: Jobs, t: TemplateId,
                        allIds: seq<TemplateId>, st: State): (r: (map<TemplateId, Template>, Jobs))
    requires st != Draft && t in templates && Consistent(templates, j)
    ensures r.0.Keys == templates.Keys && r.1.crons.Keys == j.crons.Keys && Consistent(r.0, r.1)
  {
    var tmpl := templates[t];
    (templates[t := tmpl.(state := st)], UpdateCronEffect(j, allIds, tmpl.cron, PeriodOf(tmpl, j.crons), st).0)
  }

  /** `action_done` / `action_cancel`: template after template, the new state is written
      and then the template's job is updated. */
  function SetStateAll(templates: map<TemplateId, Template>, j: Jobs, ids: seq<TemplateId>,
                       allIds: seq<TemplateId>, st: State): (r: (map<TemplateId, Template>, Jobs))
    requires st != Draft
    requires AllKnown(ids, templates) && Consistent(templates, j)
    ensures r.0.Keys == templates.Keys && r.1.crons.Keys == j.crons.Keys && Consistent(r.0, r.1)
    decreases |ids|
  {
    if |ids| == 0 then (templates, j)
    else
      var (ts', j') := SetStateStep(templates, j, ids[0], allIds, st);
      SetStateAll(ts', j', ids[1..], allIds, st)
  }

  /** One iteration of `action_draft` as written: the job is updated first; a job id it
      returns is stored in the `state` dictionary, which is shared by all iterations, so
      a job id stored for one template is also written to every later template of the
      same call. The `True` branches of `_update_cron` cannot arise for the draft state. */
  function DraftStep(templates: map<TemplateId, Template>, j: Jobs, t: TemplateId,
                     allIds: seq<TemplateId>, carried: Option<CronId>): (r: (map<TemplateId, Template>, Jobs, Option<CronId>))
    requires t in templates && Consistent(templates, j) && |allIds| > 0
    requires carried.Some? ==> carried.value in j.crons
    ensures r.0.Keys == templates.Keys && Consistent(r.0, r.1)
    ensures r.2.Some? ==> r.2.value in r.1.crons
  {
    var tmpl := templates[t];
    var (j', res) := UpdateCronEffect(j, allIds, tmpl.cron, PeriodOf(tmpl, j.crons), Draft);
    var carried' := if res.ReturnedJob? then Some(res.job) else carried;
    var tmpl' := if carried'.Some? then tmpl.(state := Draft, cron := carried') else tmpl.(state := Draft);
    (templates[t := tmpl'], j', carried')
  }

  /** `action_draft` as written, template after template. */
  function DraftAll(templates: map<TemplateId, Template>, j: Jobs, ids: seq<TemplateId>,
                    allIds: seq<TemplateId>, carried: Option<CronId>): (r: (map<TemplateId, Template>, Jobs))
    requires AllKnown(ids, templates) && Consistent(templates, j)
    requires |ids| > 0 ==> |allIds| > 0
    requires carried.Some? ==> carried.value in j.crons
    ensures r.0.Keys == templates.Keys && Consistent(r.0, r.1)
    decreases |ids|
  {
    if |ids| == 0 then (templates, j)
    else
      var (ts', j', carried') := DraftStep(templates, j, ids[0], allIds, carried);
      DraftAll(ts', j', ids[1..], allIds, carried')
  }

  /** `DraftAll` unfolded by one template, whose step leads to `ts'`, `j'` and `carried'`. */
  lemma DraftAllStep(templates: map<TemplateId, Template>, j: Jobs, ids: seq<TemplateId>,
                     allIds: seq<TemplateId>, carried: Option<CronId>,
                     ts': map<TemplateId, Template>, j': Jobs, carried': Option<CronId>)
    requires |ids| > 0 && AllKnown(ids, templates) && Consistent(templates, j) && |allIds| > 0
    requires carried.Some? ==> carried.value in j.crons
    requires (ts', j', carried') == DraftStep(templates, j, ids[0], allIds, carried)
    ensures AllKnown(ids[1..], ts') && Consistent(ts', j') && (carried'.Some? ==> carried'.value in j'.crons)
    ensures DraftAll(templates, j, ids, allIds, carried) == DraftAll(ts', j', ids[1..], allIds, carried')
  {
  }

  /** `SetStateAll` unfolded by one template, whose step leads to `ts'` and `j'`. */
  lemma SetStateAllStep(templates: map<TemplateId, Template>, j: Jobs, ids: seq<TemplateId>,
                        allIds: seq<TemplateId>, st: State, ts': map<TemplateId, Template>, j': Jobs)
    requires st != Draft && |ids| > 0 && AllKnown(ids, templates) && Consistent(templates, j)
    requires (ts', j') == SetStateStep(templates, j, ids[0], allIds, st)
    ensures AllKnown(ids[1..], ts') && Consistent(ts', j')
    ensures SetStateAll(templates, j, ids, allIds, st) == SetStateAll(ts', j', ids[1..], allIds, st)
  {
  }

  /** One iteration of `action_draft` with a fresh dictionary: a missing job is created
      for the template alone, and the template takes only the job created for itself. */
  function DraftFixedStep(templates: map<TemplateId, Template>, j: Jobs, t: TemplateId): (r: (map<TemplateId, Template>, Jobs))
    requires t in templates && Consistent(templates, j)
    ensures r.0.Keys == templates.Keys && Consistent(r.0, r.1)
  {
    var tmpl := templates[t];
    var (j', res) := UpdateCronEffect(j, [t], tmpl.cron, PeriodOf(tmpl, j.crons), Draft);
    var tmpl' := if res.ReturnedJob? then tmpl.(state := Draft, cron := Some(res.job)) else tmpl.(state := Draft);
    (templates[t := tmpl'], j')
  }

  /** `action_draft` with a fresh dictionary per template, template after template. */
  function DraftAllFixed(templates: map<TemplateId, Template>, j: Jobs, ids: seq<TemplateId>): (r: (map<TemplateId, Template>, Jobs))
    requires AllKnown(ids, templates) && Consistent(templates, j)
    ensures r.0.Keys == templates.Keys && Consistent(r.0, r.1)
    decreases |ids|
  {
    if |ids| == 0 then (templates, j)
    else
      var (ts', j') := DraftFixedStep(templates, j, ids[0]);
      DraftAllFixed(ts', j', ids[1..])
  }

  /** `DraftAllFixed` unfolded by one template, whose step leads to `ts'` and `j'`. */
  lemma DraftAllFixedStep(templates: map<TemplateId, Template>, j: Jobs, ids: seq<TemplateId>,
                          ts': map<TemplateId, Template>, j': Jobs)
    requires |ids| > 0 && AllKnown(ids, templates) && Consistent(templates, j)
    requires (ts', j') == DraftFixedStep(templates, j, ids[0])
    ensures AllKnown(ids[1..], ts') && Consistent(ts', j')
    ensures DraftAllFixed(templates, j, ids) == DraftAllFixed(ts', j', ids[1..])
  {
  }

  // ---------------------------------------------------------------------------
  // Properties

  /** The branches of `_update_cron`: an existing job is activated for `done` (returning
      `True`), deactivated for `draft` (returning `False`) and for `cancel` (returning
      `True`); a missing job is created, inactive, for `draft` (returning its fresh id);
      every other case changes nothing and returns `None`. */
  lemma UpdateCronOutcomes(j: Jobs, ids: seq<TemplateId>, cron: Option<CronId>, period: Option<Period>, st: State)
    requires Consistent(map[], j)
    requires cron.Some? ==> cron.value in j.crons
    requires cron.None? && st == Draft ==> |ids| > 0
    ensures var (j', r) := UpdateCronEffect(j, ids, cron, period, st);
      && (r.ReturnedNone? <==> cron.None? && st != Draft)
      && (r.ReturnedNone? ==> j' == j)
      && (Truthy(r) <==> (cron.Some? && st != Draft) || (cron.None? && st == Draft))
      && (cron.Some? ==>
            j'.nextId == j.nextId
            && j'.crons == j.crons[cron.value := j.crons[cron.value].(active := st == Done)]
            && (r == if st == Draft then ReturnedFalse else ReturnedTrue))
      && (cron.None? && st == Draft ==>
            r == ReturnedJob(j.nextId) && j.nextId !in j.crons && j'.nextId > j.nextId
            && j'.crons == j.crons[j.nextId := NewCron(ids, period)]
            && !j'.crons[j.nextId].active && j'.crons[j.nextId].args == ids)
  {
  }

  /** `j'` has the jobs of `j`, each unchanged or with its `active` flag set to `on`. */
  predicate OnlyToggles(j: Jobs, j': Jobs, on: bool)
  {
    && j'.nextId == j.nextId && j'.crons.Keys == j.crons.Keys
    && (forall c :: c in j.crons ==> j'.crons[c] == j.crons[c] || j'.crons[c] == j.crons[c].(active := on))
  }

  lemma OnlyTogglesTransitive(j1: Jobs, j2: Jobs, j3: Jobs, on: bool)
    requires OnlyToggles(j1, j2, on) && OnlyToggles(j2, j3, on)
    ensures OnlyToggles(j1, j3, on)
  {
  }

  /** One iteration of `action_done` / `action_cancel` writes the state to its template
      only, creates no job, and sets the template's job, if any, to active exactly for
      `done`. */
  lemma SetStateStepEffect(templates: map<TemplateId, Template>, j: Jobs, t: TemplateId,
                           allIds: seq<TemplateId>, st: State)
    requires st != Draft && t in templates && Consistent(templates, j)
    ensures var r := SetStateStep(templates, j, t, allIds, st);
      && r.0 == templates[t := templates[t].(state := st)]
      && OnlyToggles(j, r.1, st == Done)
      && (templates[t].cron.Some? ==> r.1.crons[templates[t].cron.value].active == (st == Done))
  {
  }

  /** `action_done` / `action_cancel` create no job and only switch existing jobs on
      (for `done`) or off (for `cancel`). */
  lemma {:induction false} SetStateAllTogglesJobs(templates: map<TemplateId, Template>, j: Jobs,
                                                  ids: seq<TemplateId>, allIds: seq<TemplateId>, st: State)
    requires st != Draft
    requires AllKnown(ids, templates) && Consistent(templates, j)
    ensures OnlyToggles(j, SetStateAll(templates, j, ids, allIds, st).1, st == Done)
    decreases |ids|
  {
    if |ids| > 0 {
      var r1 := SetStateStep(templates, j, ids[0], allIds, st);
      SetStateStepEffect(templates, j, ids[0], allIds, st);
      SetStateAllStep(templates, j, ids, allIds, st, r1.0, r1.1);
      SetStateAllTogglesJobs(r1.0, r1.1, ids[1..], allIds, st);
      OnlyTogglesTransitive(j, r1.1, SetStateAll(r1.0, r1.1, ids[1..], allIds, st).1, st == Done);
    }
  }

  /** After `action_done` or `action_cancel` every template of the call is in the new
      state with its other fields unchanged, and the other templates are untouched. */
  lemma {:induction false} SetStateAllWritesState(templates: map<TemplateId, Template>, j: Jobs,
                                                  ids: seq<TemplateId>, allIds: seq<TemplateId>, st: State)
    requires st != Draft
    requires AllKnown(ids, templates) && Consistent(templates, j)
    ensures var ts := SetStateAll(templates, j, ids, allIds, st).0;
      && (forall t :: t in templates && t !in ids ==> ts[t] == templates[t])
      && (forall t :: t in ids ==> ts[t] == templates[t].(state := st))
    decreases |ids|
  {
    if |ids| > 0 {
      var r1 := SetStateStep(templates, j, ids[0], allIds, st);
      SetStateStepEffect(templates, j, ids[0], allIds, st);
      SetStateAllStep(templates, j, ids, allIds, st, r1.0, r1.1);
      SetStateAllWritesState(r1.0, r1.1, ids[1..], allIds, st);
      var ts := SetStateAll(r1.0, r1.1, ids[1..], allIds, st).0;
      forall t | t in ids ensures ts[t] == templates[t].(state := st) {
        if t !in ids[1..] { assert t == ids[0]; }
      }
      forall t | t in templates && t !in ids ensures ts[t] == templates[t] {
        assert t != ids[0] && t !in ids[1..];
      }
    }
  }

  /** After `action_done` or `action_cancel` the job of every template of the call is
      active exactly when the new state is `done`. */
  lemma {:induction false} SetStateAllSyncsJobs(templates: map<TemplateId, Template>, j: Jobs,
                                                ids: seq<TemplateId>, allIds: seq<TemplateId>, st: State)
    requires st != Draft
    requires AllKnown(ids, templates) && Consistent(templates, j)
    ensures var j' := SetStateAll(templates, j, ids, allIds, st).1;
      forall t :: t in ids && templates[t].cron.Some? ==> j'.crons[templates[t].cron.value].active == (st == Done)
    decreases |ids|
  {
    if |ids| > 0 {
      var r1 := SetStateStep(templates, j, ids[0], allIds, st);
      SetStateStepEffect(templates, j, ids[0], allIds, st);
      SetStateAllStep(templates, j, ids, allIds, st, r1.0, r1.1);
      SetStateAllSyncsJobs(r1.0, r1.1, ids[1..], allIds, st);
      SetStateAllTogglesJobs(r1.0, r1.1, ids[1..], allIds, st);
      var j' := SetStateAll(r1.0, r1.1, ids[1..], allIds, st).1;
      forall t | t in ids && templates[t].cron.Some?
        ensures j'.crons[templates[t].cron.value].active == (st == Done)
      {
        assert r1.0[t].cron == templates[t].cron;
        if t !in ids[1..] {
          assert t == ids[0];
        }
      }
    }
  }

  /** `j'` differs from `j` only by deactivated jobs and new inactive jobs. */
  predicate OnlyDeactivates(j: Jobs, j': Jobs)
  {
    && j'.nextId >= j.nextId && j.crons.Keys <= j'.crons.Keys
    && (forall c :: c in j.crons ==> j'.crons[c] == j.crons[c] || j'.crons[c] == j.crons[c].(active := false))
    && (forall c :: c in j'.crons && c !in j.crons ==> !j'.crons[c].active)
  }

  lemma OnlyDeactivatesTransitive(j1: Jobs, j2: Jobs, j3: Jobs)
    requires OnlyDeactivates(j1, j2) && OnlyDeactivates(j2, j3)
    ensures OnlyDeactivates(j1, j3)
  {
    forall c | c in j3.crons && c !in j1.crons ensures !j3.crons[c].active {
      if c in j2.crons {
        assert !j2.crons[c].active;
      }
    }
  }

  /** For the draft state `_update_cron` never activates a job. */
  lemma UpdateCronDraftOnlyDeactivates(j: Jobs, ids: seq<TemplateId>, cron: Option<CronId>, period: Option<Period>)
    requires Consistent(map[], j)
    requires cron.Some? ==> cron.value in j.crons
    requires cron.None? ==> |ids| > 0
    ensures OnlyDeactivates(j, UpdateCronEffect(j, ids, cron, period, Draft).0)
  {
  }

  /** One iteration of `action_draft` as written: only its template changes and it ends
      in draft, and no job is activated. */
  lemma DraftStepEffect(templates: map<TemplateId, Template>, j: Jobs, t: TemplateId,
                        allIds: seq<TemplateId>, carried: Option<CronId>)
    requires t in templates && Consistent(templates, j) && |allIds| > 0
    requires carried.Some? ==> carried.value in j.crons
    ensures var r := DraftStep(templates, j, t, allIds, carried);
      && (forall u :: u in templates && u != t ==> r.0[u] == templates[u])
      && r.0[t].state == Draft && r.0[t].name == templates[t].name
      && r.0[t].currentLine == templates[t].currentLine
      && OnlyDeactivates(j, r.1)
  {
    var tmpl := templates[t];
    UpdateCronDraftOnlyDeactivates(j, allIds, tmpl.cron, PeriodOf(tmpl, j.crons));
  }

  /** Even as written, `action_draft` never activates a job, puts every template of the
      call in draft and leaves the other templates untouched. */
  lemma {:induction false} DraftAllDeactivates(templates: map<TemplateId, Template>, j: Jobs,
                                               ids: seq<TemplateId>, allIds: seq<TemplateId>,
                                               carried: Option<CronId>)
    requires AllKnown(ids, templates) && Consistent(templates, j)
    requires |ids| > 0 ==> |allIds| > 0
    requires carried.Some? ==> carried.value in j.crons
    ensures var (ts, j') := DraftAll(templates, j, ids, allIds, carried);
      && OnlyDeactivates(j, j')
      && (forall t :: t in ids ==> ts[t].state == Draft)
      && (forall t :: t in templates && t !in ids ==> ts[t] == templates[t])
    decreases |ids|
  {
    if |ids| > 0 {
      var (ts1, j1, c1) := DraftStep(templates, j, ids[0], allIds, carried);
      DraftStepEffect(templates, j, ids[0], allIds, carried);
      DraftAllStep(templates, j, ids, allIds, carried, ts1, j1, c1);
      DraftAllDeactivates(ts1, j1, ids[1..], allIds, c1);
      var (ts, j') := DraftAll(ts1, j1, ids[1..], allIds, c1);
      OnlyDeactivatesTransitive(j, j1, j');
      forall t | t in ids ensures ts[t].state == Draft {
        if t !in ids[1..] {
          assert t == ids[0];
        }
      }
      forall t | t in templates && t !in ids ensures ts[t] == templates[t] {
        assert t != ids[0] && t !in ids[1..];
      }
    }
  }

  /** One iteration of the corrected `action_draft`: only its template changes; it ends
      in draft with an inactive job of its own (the one it had, or a new one), and no
      job is activated. */
  lemma DraftFixedStepEffect(templates: map<TemplateId, Template>, j: Jobs, t: TemplateId)
    requires t in templates && Consistent(templates, j)
    ensures var r := DraftFixedStep(templates, j, t);
      && (forall u :: u in templates && u != t ==> r.0[u] == templates[u])
      && r.0[t].state == Draft && r.0[t].cron.Some? && !r.1.crons[r.0[t].cron.value].active
      && (templates[t].cron.Some? ==> r.0[t] == templates[t].(state := Draft))
      && (templates[t].cron.None? ==> r.1.crons[r.0[t].cron.value].args == [t])
      && OnlyDeactivates(j, r.1)
  {
    var tmpl := templates[t];
    UpdateCronDraftOnlyDeactivates(j, [t], tmpl.cron, PeriodOf(tmpl, j.crons));
  }

  /** The corrected `action_draft` never activates a job: existing jobs keep their
      fields or are deactivated, and the jobs it creates are inactive. */
  lemma {:induction false} DraftAllFixedDeactivates(templates: map<TemplateId, Template>, j: Jobs,
                                                    ids: seq<TemplateId>)
    requires AllKnown(ids, templates) && Consistent(templates, j)
    ensures OnlyDeactivates(j, DraftAllFixed(templates, j, ids).1)
    decreases |ids|
  {
    if |ids| > 0 {
      var r1 := DraftFixedStep(templates, j, ids[0]);
      DraftFixedStepEffect(templates, j, ids[0]);
      DraftAllFixedStep(templates, j, ids, r1.0, r1.1);
      DraftAllFixedDeactivates(r1.0, r1.1, ids[1..]);
      OnlyDeactivatesTransitive(j, r1.1, DraftAllFixed(r1.0, r1.1, ids[1..]).1);
    }
  }

  /** The corrected `action_draft` leaves the templates outside the call untouched and
      only sets the state of a template of the call that already had a job. */
  lemma {:induction false} DraftAllFixedKeepsOthers(templates: map<TemplateId, Template>, j: Jobs,
                                                    ids: seq<TemplateId>)
    requires AllKnown(ids, templates) && Consistent(templates, j)
    ensures var ts := DraftAllFixed(templates, j, ids).0;
      && (forall t :: t in templates && t !in ids ==> ts[t] == templates[t])
      && (forall t :: t in ids && templates[t].cron.Some? ==> ts[t] == templates[t].(state := Draft))
    decreases |ids|
  {
    if |ids| > 0 {
      var r1 := DraftFixedStep(templates, j, ids[0]);
      DraftFixedStepEffect(templates, j, ids[0]);
      DraftAllFixedStep(templates, j, ids, r1.0, r1.1);
      DraftAllFixedKeepsOthers(r1.0, r1.1, ids[1..]);
      var ts := DraftAllFixed(r1.0, r1.1, ids[1..]).0;
      forall t | t in ids && templates[t].cron.Some? ensures ts[t] == templates[t].(state := Draft) {
        if t !in ids[1..] {
          assert t == ids[0];
        } else if t != ids[0] {
          assert r1.0[t] == templates[t];
        } else {
          assert r1.0[t] == templates[t].(state := Draft);
        }
      }
      forall t | t in templates && t !in ids ensures ts[t] == templates[t] {
        assert t != ids[0] && t !in ids[1..];
      }
    }
  }

  /** After the corrected `action_draft` every template of the call is in draft with an
      inactive job; a template that had none gets a job that switches it alone. */
  lemma {:induction false} DraftAllFixedKeepsOwnJobs(templates: map<TemplateId, Template>, j: Jobs,
                                                     ids: seq<TemplateId>)
    requires AllKnown(ids, templates) && Consistent(templates, j)
    ensures var (ts, j') := DraftAllFixed(templates, j, ids);
      forall t :: t in ids ==>
        && ts[t].state == Draft && ts[t].cron.Some? && !j'.crons[ts[t].cron.value].active
        && (templates[t].cron.None? ==> j'.crons[ts[t].cron.value].args == [t])
    decreases |ids|
  {
    if |ids| > 0 {
      var r1 := DraftFixedStep(templates, j, ids[0]);
      DraftFixedStepEffect(templates, j, ids[0]);
      DraftAllFixedStep(templates, j, ids, r1.0, r1.1);
      DraftAllFixedKeepsOwnJobs(r1.0, r1.1, ids[1..]);
      DraftAllFixedKeepsOthers(r1.0, r1.1, ids[1..]);
      DraftAllFixedDeactivates(r1.0, r1.1, ids[1..]);
      var (ts, j') := DraftAllFixed(r1.0, r1.1, ids[1..]);
      forall t | t in ids
        ensures ts[t].state == Draft && ts[t].cron.Some? && !j'.crons[ts[t].cron.value].active
        ensures templates[t].cron.None? ==> j'.crons[ts[t].cron.value].args == [t]
      {
        if t !in ids[1..] {
          assert t == ids[0] && ts[t] == r1.0[t];
          var c := r1.0[t].cron.value;
          assert c in r1.1.crons && !r1.1.crons[c].active;
        } else if t == ids[0] && templates[t].cron.None? {
          var c := r1.0[t].cron.value;
          assert ts[t] == r1.0[t].(state := Draft);
          assert c in r1.1.crons && r1.1.crons[c].args == [t];
        } else if t != ids[0] {
          assert r1.0[t] == templates[t];
        }
      }
    }
  }

  /** As written, `action_draft` on a template `a` without a job followed by a template
      `b` with one hands `b` the job just created for `a`, a job that switches both
      templates, and drops `b`'s own job. */
  lemma DraftHandsOnCreatedJob(templates: map<TemplateId, Template>, j: Jobs, a: TemplateId, b: TemplateId)
    requires a != b && a in templates && b in templates && Consistent(templates, j)
    requires templates[a].cron.None? && templates[b].cron.Some?
    ensures var asWritten := DraftAll(templates, j, [a, b], [a, b], None);
      && asWritten.0[a].cron == Some(j.nextId)
      && asWritten.0[b].cron == Some(j.nextId) && asWritten.0[b].cron != templates[b].cron
      && asWritten.1.crons[j.nextId].args == [a, b]
  {
    assert [a, b][0] == a && [a, b][1..] == [b] && [b][0] == b && [b][1..] == [];
    var n := j.nextId;
    var (ts1, j1, c1) := DraftStep(templates, j, a, [a, b], None);
    DraftJobCoversWholeCall(templates, j, a, [a, b], None);
    DraftAllStep(templates, j, [a, b], [a, b], None, ts1, j1, c1);
    DraftStepEffect(templates, j, a, [a, b], None);
    var (ts2, j2, c2) := DraftStep(ts1, j1, b, [a, b], c1);
    DraftStepKeepsCarried(ts1, j1, b, [a, b], c1);
    DraftStepEffect(ts1, j1, b, [a, b], c1);
    DraftAllStep(ts1, j1, [b], [a, b], c1, ts2, j2, c2);
  }

  /** As written, an iteration on a template that has a job passes the carried job id
      on and writes it over the template's own job; its own job is only deactivated. */
  lemma DraftStepKeepsCarried(templates: map<TemplateId, Template>, j: Jobs, t: TemplateId,
                              allIds: seq<TemplateId>, carried: Option<CronId>)
    requires t in templates && Consistent(templates, j) && |allIds| > 0
    requires carried.Some? ==> carried.value in j.crons
    requires templates[t].cron.Some?
    ensures var r := DraftStep(templates, j, t, allIds, carried);
      var c := templates[t].cron.value;
      && r.2 == carried
      && r.0[t].cron == (if carried.Some? then carried else templates[t].cron)
      && r.1 == j.(crons := j.crons[c := j.crons[c].(active := false)])
  {
  }

  /** Corrected, the same call keeps `b`'s own job and creates `a`'s job for `a` alone. */
  lemma DraftFixedKeepsLaterJob(templates: map<TemplateId, Template>, j: Jobs, a: TemplateId, b: TemplateId)
    requires a != b && a in templates && b in templates && Consistent(templates, j)
    requires templates[a].cron.None? && templates[b].cron.Some?
    ensures var fixed := DraftAllFixed(templates, j, [a, b]);
      && fixed.0[b].cron == templates[b].cron
      && fixed.0[a].cron == Some(j.nextId) && fixed.1.crons[j.nextId].args == [a]
  {
    assert [a, b][0] == a && [a, b][1..] == [b] && [b][0] == b && [b][1..] == [];
    var n := j.nextId;
    var (fs1, k1) := DraftFixedStep(templates, j, a);
    DraftFixedStepCreates(templates, j, a);
    DraftFixedStepEffect(templates, j, a);
    DraftAllFixedStep(templates, j, [a, b], fs1, k1);
    var (fs2, k2) := DraftFixedStep(fs1, k1, b);
    DraftFixedStepKeeps(fs1, k1, b);
    DraftFixedStepEffect(fs1, k1, b);
    assert templates[b].cron.value < n;
    DraftAllFixedStep(fs1, k1, [b], fs2, k2);
  }

  /** Corrected, an iteration on a template without a job creates one for it alone. */
  lemma DraftFixedStepCreates(templates: map<TemplateId, Template>, j: Jobs, t: TemplateId)
    requires t in templates && Consistent(templates, j) && templates[t].cron.None?
    ensures var r := DraftFixedStep(templates, j, t);
      && r.0[t].cron == Some(j.nextId)
      && r.1 == Jobs(j.crons[j.nextId := NewCron([t], None)], j.nextId + 1)
  {
  }

  /** Corrected, an iteration on a template with a job keeps that job and deactivates it. */
  lemma DraftFixedStepKeeps(templates: map<TemplateId, Template>, j: Jobs, t: TemplateId)
    requires t in templates && Consistent(templates, j) && templates[t].cron.Some?
    ensures var r := DraftFixedStep(templates, j, t);
      var c := templates[t].cron.value;
      && r.0[t] == templates[t].(state := Draft)
      && r.1 == j.(crons := j.crons[c := j.crons[c].(active := false)])
  {
  }

  /** As written, a job created by `action_draft` switches every template of the call,
      not only the template it is created for. */
  lemma DraftJobCoversWholeCall(templates: map<TemplateId, Template>, j: Jobs, t: TemplateId,
                                allIds: seq<TemplateId>, carried: Option<CronId>)
    requires t in templates && Consistent(templates, j) && |allIds| > 0
    requires carried.Some? ==> carried.value in j.crons
    requires templates[t].cron.None?
    ensures var r := DraftStep(templates, j, t, allIds, carried);
      && r.2 == Some(j.nextId) && r.0[t].cron == Some(j.nextId)
      && r.1 == Jobs(j.crons[j.nextId := NewCron(allIds, None)], j.nextId + 1)
      && r.1.crons[j.nextId].args == allIds
  {
  }

  /** The smallest instance: with template 10 without a job and template 11 on job 1,
      as written both end on the new job 2; corrected, 11 keeps job 1. */
  lemma DraftSharesEarlierJob()
    ensures var templates := map[10 := Template("A", Done, None, None), 11 := Template("B", Done, None, Some(1))];
      var j := Jobs(map[1 := NewCron([11], Some(Days))], 2);
      var asWritten := DraftAll(templates, j, [10, 11], [10, 11], None);
      var fixed := DraftAllFixed(templates, j, [10, 11]);
      && asWritten.0[11].cron == Some(2) && asWritten.0[10].cron == Some(2)
      && fixed.0[11].cron == Some(1) && fixed.0[10].cron == Some(2)
  {
    var templates := map[10 := Template("A", Done, None, None), 11 := Template("B", Done, None, Some(1))];
    var j := Jobs(map[1 := NewCron([11], Some(Days))], 2);
    assert Consistent(templates, j);
    DraftHandsOnCreatedJob(templates, j, 10, 11);
    DraftFixedKeepsLaterJob(templates, j, 10, 11);
  }
}
