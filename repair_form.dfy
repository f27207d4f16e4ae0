/** The repair-editing form (src/EditRepair.js): the form state loaded from
    a fetched repair row, the field update of `handleChange` and
    `handleDateChange`, and the payload `handleSubmit` sends. The form state
    is a JavaScript object, so it is a map from field names to values. */
module RepairForm {
  import opened JsValues

  type Form = map<string, Value>

  /** Free-text fields, loaded with `''` as the default. */
  const TextFields: set<string> :=
    {"techid", "deviceid", "description", "password", "other", "budget", "notes"}

  /** Checkbox fields, loaded with `false` as the default. */
  const FlagFields: set<string> := {"battery", "charger", "cable", "bag", "delivered"}

  const FormFields: set<string> := TextFields + FlagFields + {"startdate", "status", "enddate"}

  /** The statuses under which a repair carries an end date. */
  predicate IsClosingStatus(status: Value) {
    status == Str("0") || status == Str("4")
  }

  /** The value of field `k` of a form object: `formData[k]`. */
  function FieldOf(f: Form, k: string): Value {
    Get(Obj(f), k)
  }

  /** The form state before anything is loaded. */
  function InitialForm(): (f: Form)
    ensures f.Keys == FormFields
    ensures forall k :: k in TextFields || k == "startdate" || k == "status" ==> f[k] == Str("")
    ensures forall k :: k in FlagFields ==> f[k] == Bool(false)
    ensures f["enddate"] == Null
  {
    map k | k in FormFields :: if k in FlagFields then Bool(false) else if k == "enddate" then Null else Str("")
  }

  /** Submitting the form before any row has loaded sends every field of the
      form, and no end date: the initial status `''` is not a closing one. */
  lemma InitialPayloadHasNoEndDate(today: string)
    ensures Payload(InitialForm(), today).Keys == FormFields
    ensures Payload(InitialForm(), today)["enddate"] == Null
    ensures Payload(InitialForm(), today)["status"] == Str("")
  {
  }

  /** The status as the form holds it: `row?.status?.toString() || '0'`. */
  function LoadedStatus(row: Value): (s: Value)
    ensures s.Str? && s.s != ""
    ensures OptGet(row, "status").Undefined? || OptGet(row, "status").Null? ==> s == Str("0")
    ensures OptGet(row, "status") == Str("") ==> s == Str("0")
    ensures OptGet(row, "status") == Num(0) ==> s == Str("0")
    ensures OptGet(row, "status") == Num(4) ==> s == Str("4")
    ensures var st := OptGet(row, "status"); !st.Undefined? && !st.Null? && ToString(st) != "" ==> s == Str(ToString(st))
  {
    var st := OptGet(row, "status");
    if st.Undefined? || st.Null? then Str("0")
    else
      var text := ToString(st);
      assert st == Num(4) ==> text == "4";
      if text != "" then Str(text) else Str("0")
  }

  /** Field `k` of `sanitizedData` as loaded from `row`. */
  function LoadField(row: Value, k: string, formatDate: Value -> string, today: string): (r: Value)
    ensures k in TextFields ==> r == Or(OptGet(row, k), Str(""))
    ensures k in FlagFields ==> r == Or(OptGet(row, k), Bool(false))
    ensures k == "startdate" ==> r == Str(if Truthy(OptGet(row, k)) then formatDate(OptGet(row, k)) else today)
    ensures k == "status" ==> r == LoadedStatus(row)
    ensures k == "enddate" ==> r == if Truthy(OptGet(row, k)) then Str(formatDate(OptGet(row, k))) else Null
  {
    var v := OptGet(row, k);
    if k in TextFields then Or(v, Str(""))
    else if k in FlagFields then Or(v, Bool(false))
    else if k == "startdate" then Str(if Truthy(v) then formatDate(v) else today)
    else if k == "status" then LoadedStatus(row)
    else if Truthy(v) then Str(formatDate(v)) else Null
  }

  /** `sanitizedData`: the form state built from `repairData[0]` (taken as
      `undefined` when no row came back). `formatDate` is the date formatter
      and `today` the formatted current date. */
  function LoadForm(repairData: seq<Value>, formatDate: Value -> string, today: string): (f: Form)
    ensures f.Keys == FormFields
    ensures var row := if |repairData| > 0 then repairData[0] else Undefined;
      && (forall k :: k in TextFields ==> f[k] == Or(OptGet(row, k), Str("")))
      && (forall k :: k in FlagFields ==> f[k] == Or(OptGet(row, k), Bool(false)))
      && (forall k :: k in FlagFields && !Truthy(OptGet(row, k)) ==> f[k] == Bool(false))
      && f["startdate"] == Str(if Truthy(OptGet(row, "startdate")) then formatDate(OptGet(row, "startdate")) else today)
      && f["status"] == LoadedStatus(row)
      && f["enddate"] == (if Truthy(OptGet(row, "enddate")) then Str(formatDate(OptGet(row, "enddate"))) else Null)
  {
    var row := if |repairData| > 0 then repairData[0] else Undefined;
    map k | k in FormFields :: LoadField(row, k, formatDate, today)
  }

  /** Loading with no row at all gives every default: status `'0'`, no end
      date, unchecked flags, empty text, today's start date. */
  lemma LoadEmpty(formatDate: Value -> string, today: string)
    ensures var f := LoadForm([], formatDate, today);
      && f["status"] == Str("0") && f["enddate"] == Null && f["startdate"] == Str(today)
      && (forall k :: k in FlagFields ==> f[k] == Bool(false))
      && (forall k :: k in TextFields ==> f[k] == Str(""))
  {
  }

  /** `handleChange`: field `name` becomes `checked` for a checkbox and
      `value` otherwise; no other field changes. */
  function HandleChange(f: Form, name: string, value: string, inputType: string, checked: bool): (g: Form)
    ensures g.Keys == f.Keys + {name}
    ensures g[name] == if inputType == "checkbox" then Bool(checked) else Str(value)
    ensures forall k :: k in f && k != name ==> g[k] == f[k]
  {
    f[name := if inputType == "checkbox" then Bool(checked) else Str(value)]
  }

  /** `handleDateChange`: the end date becomes the picked value. */
  function HandleDateChange(f: Form, value: string): (g: Form)
    ensures g.Keys == f.Keys + {"enddate"}
    ensures g["enddate"] == Str(value)
    ensures forall k :: k in f && k != "enddate" ==> g[k] == f[k]
  {
    f["enddate" := Str(value)]
  }

  /** The end date sent with the form: the form's end date, or `today` when it
      is empty, under a closing status; `null` under any other status. */
  function PayloadEndDate(f: Form, today: string): Value {
    if IsClosingStatus(FieldOf(f, "status")) then Or(FieldOf(f, "enddate"), Str(today)) else Null
  }

  /** The payload of `handleSubmit`: `{...formData, enddate: ...}`. */
  function Payload(f: Form, today: string): (p: Form)
    ensures p.Keys == f.Keys + {"enddate"}
    ensures forall k :: k in f && k != "enddate" ==> p[k] == f[k]
    ensures IsClosingStatus(FieldOf(f, "status")) && Truthy(FieldOf(f, "enddate")) ==> p["enddate"] == f["enddate"]
    ensures IsClosingStatus(FieldOf(f, "status")) && !Truthy(FieldOf(f, "enddate")) ==> p["enddate"] == Str(today)
    ensures !IsClosingStatus(FieldOf(f, "status")) ==> p["enddate"] == Null
  {
    f["enddate" := PayloadEndDate(f, today)]
  }

  /** A payload built from a form whose status was just changed to a
      non-closing one never carries an end date, whatever the form held. */
  lemma StatusChangeClearsEndDate(f: Form, status: string, today: string)
    requires status != "0" && status != "4"
    ensures Payload(HandleChange(f, "status", status, "select-one", false), today)["enddate"] == Null
  {
  }

  /** Submitting is idempotent on the end date: the payload of a payload is
      the payload. */
  lemma PayloadIdempotent(f: Form, today: string)
    ensures Payload(Payload(f, today), today) == Payload(f, today)
  {
    var p := Payload(f, today);
    assert FieldOf(p, "status") == FieldOf(f, "status");
  }
}
