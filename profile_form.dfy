/** The checks `saveProfile` runs over the profile form before anything is stored
    (popup.js, `saveProfile`, up to the `try`). */
module ProfileForm {
  import opened Results
  import opened Seqs
  import opened Text
  import opened Profiles
  import opened RuleCompiler

  /** One `.header-item` row as read from the form: the select's value and the two raw
      text inputs. */
  datatype HeaderRow = HeaderRow(action: string, name: string, value: string)

  /** The reasons the form is refused, one per alert. */
  datatype FormError = MissingName | MissingUrlPattern | MissingHeaderName | MissingHeaderValue | NoHeaders

  /** The header a row is stored as: its action, its trimmed name and trimmed value. */
  function RowHeader(row: HeaderRow): Header {
    Header(ParseAction(row.action), Trim(row.name), Trim(row.value))
  }

  /** What is wrong with a row: a blank name, or a blank value on a non-delete row. */
  function RowError(row: HeaderRow): Option<FormError> {
    if Trim(row.name) == "" then Some(MissingHeaderName)
    else if row.action != "delete" && Trim(row.value) == "" then Some(MissingHeaderValue)
    else None
  }

  predicate RowOk(row: HeaderRow) { RowError(row).None? }

  /** A stored header as the form guarantees it: a non-empty name, and a non-empty value
      unless it is a delete. */
  predicate WellFormed(h: Header) {
    h.name != "" && (h.action != Delete ==> h.value != "")
  }

  /** Puts `hs` in front of a successful collection; a refusal stays a refusal. */
  function Prefixed(hs: seq<Header>, r: Result<seq<Header>, FormError>): Result<seq<Header>, FormError> {
    if r.Success? then Success(hs + r.value) else r
  }

  /** The outcome of the header loop: the error of the first bad row, or the headers of
      all rows in form order. */
  function CollectedHeaders(rows: seq<HeaderRow>): Result<seq<Header>, FormError> {
    if rows == [] then Success([])
    else if RowError(rows[0]).Some? then Failure(RowError(rows[0]).value)
    else Prefixed([RowHeader(rows[0])], CollectedHeaders(rows[1..]))
  }

  /** The header loop succeeds exactly when every row is good, and then yields one header
      per row. */
  lemma {:induction false} CollectedSucceeds(rows: seq<HeaderRow>)
    ensures CollectedHeaders(rows).Success? <==> forall i :: 0 <= i < |rows| ==> RowOk(rows[i])
    ensures CollectedHeaders(rows).Success? ==> CollectedHeaders(rows).value == Map(rows, RowHeader)
  {
    if rows != [] {
      CollectedSucceeds(rows[1..]);
      assert forall i :: 1 <= i < |rows| ==> rows[1..][i - 1] == rows[i];
    }
  }

  /** A refused header loop reports the error of the first bad row. */
  lemma {:induction false} CollectedFails(rows: seq<HeaderRow>)
    requires CollectedHeaders(rows).Failure?
    ensures exists i :: 0 <= i < |rows| && !RowOk(rows[i]) && (forall j :: 0 <= j < i ==> RowOk(rows[j]))
                     && CollectedHeaders(rows).error == RowError(rows[i]).value
  {
    if RowOk(rows[0]) {
      var tail := rows[1..];
      CollectedFails(tail);
      var i :| 0 <= i < |tail| && !RowOk(tail[i]) && (forall j :: 0 <= j < i ==> RowOk(tail[j]))
        && CollectedHeaders(tail).error == RowError(tail[i]).value;
      assert forall j :: 1 <= j < i + 1 ==> rows[j] == tail[j - 1];
      assert !RowOk(rows[i + 1]) && forall j :: 0 <= j < i + 1 ==> RowOk(rows[j]);
    } else {
      assert !RowOk(rows[0]);
    }
  }

  /** Every collected header is well formed, with its name and value trimmed. */
  lemma CollectedWellFormed(rows: seq<HeaderRow>)
    requires CollectedHeaders(rows).Success?
    ensures |CollectedHeaders(rows).value| == |rows|
    ensures forall k :: 0 <= k < |CollectedHeaders(rows).value| ==>
      WellFormed(CollectedHeaders(rows).value[k])
      && CollectedHeaders(rows).value[k].name == Trim(rows[k].name)
      && CollectedHeaders(rows).value[k].value == Trim(rows[k].value)
  {
    CollectedSucceeds(rows);
    MapAt(rows, RowHeader);
    assert forall k :: 0 <= k < |rows| ==> RowOk(rows[k]);
  }

  /** One step of the header loop: the rows from `i` on are decided by row `i`. */
  lemma CollectedStep(rows: seq<HeaderRow>, i: nat, headers: seq<Header>)
    requires i < |rows|
    ensures Prefixed(headers, CollectedHeaders(rows[i..])) ==
      if RowError(rows[i]).Some? then Failure(RowError(rows[i]).value)
      else Prefixed(headers + [RowHeader(rows[i])], CollectedHeaders(rows[i + 1..]))
  {
    assert rows[i..][0] == rows[i];
    assert rows[i..][1..] == rows[i + 1..];
    var rest := CollectedHeaders(rows[i + 1..]);
    if RowError(rows[i]).None? && rest.Success? {
      assert headers + ([RowHeader(rows[i])] + rest.value) == headers + [RowHeader(rows[i])] + rest.value;
    }
  }

  /** The header loop of `saveProfile`: walks the rows in form order and stops at the
      first bad one. */
  method CollectHeaders(rows: seq<HeaderRow>) returns (r: Result<seq<Header>, FormError>)
    ensures r == CollectedHeaders(rows)
  {
    var headers := [];
    assert rows[0..] == rows;
    assert CollectedHeaders(rows).Success? ==> [] + CollectedHeaders(rows).value == CollectedHeaders(rows).value;
    for i := 0 to |rows|
      invariant CollectedHeaders(rows) == Prefixed(headers, CollectedHeaders(rows[i..]))
    {
      var row := rows[i];
      CollectedStep(rows, i, headers);
      var headerName := Trim(row.name);
      var headerValue := Trim(row.value);
      if headerName == "" {
        return Failure(MissingHeaderName);
      }
      if row.action != "delete" && headerValue == "" {
        return Failure(MissingHeaderValue);
      }
      headers := headers + [Header(ParseAction(row.action), headerName, headerValue)];
    }
    assert rows[|rows|..] == [];
    assert headers + [] == headers;
    r := Success(headers);
  }

  /** The whole form check, in the order the alerts are tried: name, URL pattern, the
      rows, then at least one header. */
  function ValidateForm(nameField: string, patternField: string, rows: seq<HeaderRow>): (r: Result<ProfileData, FormError>)
    ensures r.Success? ==> r.value.name == Trim(nameField) && r.value.urlPattern == Trim(patternField)
    ensures r.Success? ==> r.value.name != "" && r.value.urlPattern != "" && r.value.headers != []
  {
    var name := Trim(nameField);
    var pattern := Trim(patternField);
    if name == "" then Failure(MissingName)
    else if pattern == "" then Failure(MissingUrlPattern)
    else
      var collected := CollectedHeaders(rows);
      if collected.Failure? then Failure(collected.error)
      else if collected.value == [] then Failure(NoHeaders)
      else Success(ProfileData(name, pattern, collected.value))
  }

  /** The form is accepted exactly when name and pattern are not blank, there is a row and
      every row is good; each refusal names the first check that failed, a bad row its
      own error; an accepted form stores one header per row, in form order. */
  lemma ValidateFormIff(nameField: string, patternField: string, rows: seq<HeaderRow>)
    ensures ValidateForm(nameField, patternField, rows).Success? <==>
      !IsBlank(nameField) && !IsBlank(patternField) && rows != []
      && forall i :: 0 <= i < |rows| ==> RowOk(rows[i])
    ensures IsBlank(nameField) ==> ValidateForm(nameField, patternField, rows) == Failure(MissingName)
    ensures !IsBlank(nameField) && IsBlank(patternField) ==>
      ValidateForm(nameField, patternField, rows) == Failure(MissingUrlPattern)
    ensures !IsBlank(nameField) && !IsBlank(patternField) && CollectedHeaders(rows).Failure? ==>
      ValidateForm(nameField, patternField, rows) == Failure(CollectedHeaders(rows).error)
    ensures !IsBlank(nameField) && !IsBlank(patternField) && rows == [] ==>
      ValidateForm(nameField, patternField, rows) == Failure(NoHeaders)
    ensures ValidateForm(nameField, patternField, rows).Success? ==>
      ValidateForm(nameField, patternField, rows).value.headers == Map(rows, RowHeader)
    ensures ValidateForm(nameField, patternField, rows).Success? ==>
      forall k :: 0 <= k < |ValidateForm(nameField, patternField, rows).value.headers| ==>
        WellFormed(ValidateForm(nameField, patternField, rows).value.headers[k])
  {
    TrimBlank(nameField);
    TrimBlank(patternField);
    CollectedSucceeds(rows);
    if CollectedHeaders(rows).Success? {
      CollectedWellFormed(rows);
    }
  }

  /** A row whose action is one the form's select offers. */
  predicate FromSelect(row: HeaderRow) {
    row.action == "add" || row.action == "modify" || row.action == "delete"
  }

  /** A profile saved from an accepted form whose actions come from the select compiles
      to exactly one rule. */
  lemma SavedProfileEmitsRule(nameField: string, patternField: string, rows: seq<HeaderRow>,
                              id: string, enabled: bool, createdAt: int, startRuleId: int)
    requires ValidateForm(nameField, patternField, rows).Success?
    requires forall i :: 0 <= i < |rows| ==> FromSelect(rows[i])
    ensures var d := ValidateForm(nameField, patternField, rows).value;
      |ProfileRules(Profile(id, d.name, d.urlPattern, d.headers, enabled, createdAt), startRuleId)| == 1
  {
    var d := ValidateForm(nameField, patternField, rows).value;
    var p := Profile(id, d.name, d.urlPattern, d.headers, enabled, createdAt);
    CollectedSucceeds(rows);
    CollectedWellFormed(rows);
    MapAt(rows, RowHeader);
    assert p.headers[0] == RowHeader(rows[0]);
    assert IsKept(p.headers[0]);
    EmitsRuleIff(p, startRuleId);
  }
}
