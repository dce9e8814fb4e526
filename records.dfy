/** The record shapes of the working-shift module and the identifiers that link them.
    A many2one field that may be empty is an `Option`. */
module Records {
  datatype Option<+T> = None | Some(value: T)

  datatype Result<+T, +E> = Ok(value: T) | Err(error: E)

  type TemplateId = nat
  type LineId = nat
  type ContractId = nat
  type SchedulerId = nat   // a `resource.calendar` record
  type CronId = nat

  /** A date as the record store keeps it and as `strftime('%Y-%m-%d')` renders it:
      `YYYY-MM-DD` text. */
  type DateText = string

  /** Template lifecycle: `draft`, `done` (shown as Active) and `cancel`. */
  datatype State = Draft | Done | Cancel

  /** The periods a scheduled job can repeat on. */
  datatype Period = Minutes | Hours | WorkDays | Days | Weeks | Months

  /** `hr.working.template`: the rotation pointer and the job that drives it. */
  datatype Template = Template(
    name: string,
    state: State,
    currentLine: Option<LineId>,
    cron: Option<CronId>)

  /** `hr.working.template.line`: one step of the cycle. */
  datatype Line = Line(
    id: LineId,
    sequence: int,
    template: Option<TemplateId>,
    scheduler: Option<SchedulerId>)

  /** `hr.working.template.exception`: a dated override for one contract. */
  datatype TemplateException = TemplateException(
    dateStart: Option<DateText>,
    dateStop: Option<DateText>,
    template: Option<TemplateId>,
    contract: Option<ContractId>,
    scheduler: Option<SchedulerId>)

  /** The two `hr.contract` fields the rotation reads and writes. */
  datatype Contract = Contract(
    id: ContractId,
    template: Option<TemplateId>,
    workingHours: Option<SchedulerId>)

  /** `hr.working.template.history`: one applied scheduler. */
  datatype HistoryRow = HistoryRow(
    template: TemplateId,
    scheduler: Option<SchedulerId>,
    contract: ContractId,
    date: DateText)

  /** The fields of an `ir.cron` job that the template code sets. `args` is the list of
      template ids the job passes to its `procedure`. */
  datatype Cron = Cron(
    name: string,
    active: bool,
    intervalNumber: int,
    numberCall: int,
    doAll: bool,
    model: string,
    procedure: string,
    args: seq<TemplateId>,
    intervalType: Option<Period>)

  /** The values `create` receives; an absent `state` takes the default. */
  datatype TemplateValues = TemplateValues(
    name: string,
    state: Option<State>,
    currentLine: Option<LineId>,
    intervalType: Option<Period>)

  /** Every id of `ids` names an existing template. */
  predicate AllKnown(ids: seq<TemplateId>, templates: map<TemplateId, Template>)
  {
    forall k :: 0 <= k < |ids| ==> ids[k] in templates
  }
}
