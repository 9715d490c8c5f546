/** `Step5Handler`, the review page: `populateReview` reads what the earlier
    steps stored and builds one panel per step that has a record. Step 3
    shows the representatives instead of its own record, and step 5 moves
    its uploaded documents into a sub-table. The labels the page looks up
    in the document (`getLabelForInput`) come from a function given to the
    handler. */
module Review {
  import opened Base
  import opened Objects
  import opened Text
  import opened Json
  import opened Storage
  import opened Representatives

  /** One entry of the list of steps `populateReview` walks. */
  datatype ReviewStep = ReviewStep(stepNum: int, title: string, storageKey: string, labels: seq<string>)

  const ReviewSteps: seq<ReviewStep> := [
    ReviewStep(1, "Pre-screening", "stepData_1", []),
    ReviewStep(2, "Deceased individual\U{2019}s information on file", "deceasedInfo",
      ["Name of deceased", "Social insurance number (SIN)", "Date of death"]),
    ReviewStep(3, "Representative's information", "stepData_3", []),
    ReviewStep(4, "Tax return information", "stepData_4", []),
    ReviewStep(5, "Supporting documentation", "stepData_5", [])
  ]

  const DocumentsKey := "uploadedDocuments"

  datatype SubTable = SubTable(title: string, headers: seq<string>, columns: seq<string>, rows: Json)

  /** The sub-table step 5 shows its documents in. */
  function Attachments(docs: Json): SubTable {
    SubTable("Attachments", ["Name", "Description", "File Size"], ["s5-filename", "s5-desc", "s5-size"], docs)
  }

  /** A panel of the review page: a `PanelObj` with an edit button, marked
      as a review panel, whose edit index is the step number. */
  datatype ReviewPanel = ReviewPanel(title: string, data: Props<Json>, editIndex: int, subTable: Option<SubTable>)

  const NotAvailable := JStr("N/A")

  // Step 3: the representatives

  const LegalRepRowLabels := ["Legal Representative Name", "Mailing Address", "Role", "Telephone Number", "Alternate Telephone Number"]
  const LegalRepProps := ["name", "address", "role", "phone", "altPhone"]

  /** The rows of the legal representative, when there is one: each of
      its five properties under its label, or "N/A" when missing. */
  function LegalRepEntries(legalRep: Json): (e: Props<Json>)
    ensures |e| == if Truthy(legalRep) then 5 else 0
    ensures forall q :: 0 <= q < |e| ==> e[q] == (LegalRepRowLabels[q], MemberOr(legalRep, LegalRepProps[q], NotAvailable))
  {
    if Truthy(legalRep) then
      seq(5, q requires 0 <= q < 5 => (LegalRepRowLabels[q], MemberOr(legalRep, LegalRepProps[q], NotAvailable)))
    else []
  }

  const RecipientFields := ["Name", "Mailing Address", "Telephone Number", "Alternate Telephone Number"]
  const RecipientProps := ["name", "address", "phone", "altPhone"]

  /** The value of a template literal whose pieces evaluate to `parts`. */
  function Template(parts: seq<string>): string {
    if parts == [] then "" else parts[0] + Template(parts[1..])
  }

  /** The label of a field of the mail recipient at index `k`, numbered
      from 1: `Mail Recipient ${index + 1} <field>`. */
  function RecipientKey(k: int, field: string): string {
    Template(["Mail Recipient ", IntToString(k + 1), " ", field])
  }

  lemma RecipientKeyText(k: int, field: string)
    ensures RecipientKey(k, field) == "Mail Recipient " + (IntToString(k + 1) + (" " + field))
  {
    var parts := ["Mail Recipient ", IntToString(k + 1), " ", field];
    assert parts[1..][1..][1..] == [field];
    assert Template([field]) == field by {
      assert [field][1..] == [];
    }
    assert Template(parts[1..][1..]) == " " + field;
    assert Template(parts[1..]) == IntToString(k + 1) + (" " + field);
  }

  /** `recipient.altPhone && recipient.altPhone.trim() !== ""`. */
  predicate HasAltPhone(recipient: Json) {
    match Member(recipient, "altPhone")
    case Some(JStr(s)) => Trim(s) != ""
    case _ => false
  }

  /** A recipient's non-blank alternate telephone is a non-empty string,
      so `|| "N/A"` keeps it. */
  lemma AltPhoneKept(recipient: Json)
    requires HasAltPhone(recipient)
    ensures Member(recipient, "altPhone").Some?
    ensures MemberOr(recipient, "altPhone", NotAvailable) == Member(recipient, "altPhone").value
  {
    var s := Member(recipient, "altPhone").value.s;
    assert Trim(s) != "";
    assert s != "";
  }

  /** The rows of the mail recipient at index `k`: name, address and
      telephone, each "N/A" when missing, then the alternate telephone only
      when it is not blank (it is then truthy, so `|| "N/A"` would not
      change it). */
  function RecipientEntries(k: int, recipient: Json): (e: Props<Json>)
    ensures |e| == if HasAltPhone(recipient) then 4 else 3
  {
    var rows := seq(4, q requires 0 <= q < 4 => (RecipientKey(k, RecipientFields[q]), MemberOr(recipient, RecipientProps[q], NotAvailable)));
    if HasAltPhone(recipient) then rows else rows[..3]
  }

  /** Row `q` of a recipient: field `q` under its numbered label, "N/A"
      when the recipient lacks it. */
  lemma RecipientRow(k: int, recipient: Json, q: int)
    requires 0 <= q < |RecipientEntries(k, recipient)|
    ensures RecipientEntries(k, recipient)[q]
      == (RecipientKey(k, RecipientFields[q]), MemberOr(recipient, RecipientProps[q], NotAvailable))
  {
  }

  function RecipientsEntries(recipients: seq<Json>): Props<Json>
    decreases |recipients|
  {
    if recipients == [] then []
    else
      var n := |recipients| - 1;
      RecipientsEntries(recipients[..n]) + RecipientEntries(n, recipients[n])
  }

  /** The data of the step-3 panel: the legal representative first, then
      each mail recipient in order. */
  function Step3Entries(legalRep: Json, recipients: seq<Json>): Props<Json> {
    LegalRepEntries(legalRep) + RecipientsEntries(recipients)
  }

  /** Different recipients or different fields never share a label, even
      past recipient 9: the number is followed by a space. */
  lemma RecipientKeyInjective(j: int, f: string, k: int, g: string)
    requires RecipientKey(j, f) == RecipientKey(k, g)
    ensures j == k && f == g
  {
    var p := "Mail Recipient ";
    var x, y := IntToString(j + 1) + (" " + f), IntToString(k + 1) + (" " + g);
    RecipientKeyText(j, f);
    RecipientKeyText(k, g);
    assert x == (p + x)[|p|..] && y == (p + y)[|p|..];
    IntToStringPrefixInjective(j + 1, k + 1, " " + f, " " + g);
    var n := |IntToString(j + 1)|;
    assert " " + f == x[n..] && " " + g == y[n..];
    assert f == (" " + f)[1..] && g == (" " + g)[1..];
  }

  /** No row of the legal representative has a recipient's label. */
  lemma LegalRepKeysApart(k: int, f: string)
    ensures forall q :: 0 <= q < |LegalRepRowLabels| ==> LegalRepRowLabels[q] != RecipientKey(k, f)
  {
    var rk := RecipientKey(k, f);
    RecipientKeyText(k, f);
    assert rk[0] == 'M' && rk[4] == ' ';
    assert LegalRepRowLabels[1][4] == 'i';
  }

  lemma RecipientFieldsDistinct()
    ensures forall i, j :: 0 <= i < j < |RecipientFields| ==> RecipientFields[i] != RecipientFields[j]
  {
    assert |RecipientFields[0]| == 4 && |RecipientFields[1]| == 15;
    assert |RecipientFields[2]| == 16 && |RecipientFields[3]| == 26;
  }

  /** A row of the recipients that carries the label of field `f` of
      recipient `n` is a row of that recipient, which has that field. */
  lemma {:induction false} RecipientsKeyAt(recipients: seq<Json>, n: int, f: string, p: int)
    requires 0 <= p < |RecipientsEntries(recipients)|
    requires RecipientsEntries(recipients)[p].0 == RecipientKey(n, f)
    ensures 0 <= n < |recipients|
    ensures exists q :: 0 <= q < |RecipientEntries(n, recipients[n])| && f == RecipientFields[q]
    decreases |recipients|
  {
    var m := |recipients| - 1;
    var front := RecipientsEntries(recipients[..m]);
    var block := RecipientEntries(m, recipients[m]);
    assert RecipientsEntries(recipients) == front + block;
    if p < |front| {
      assert front[p] == RecipientsEntries(recipients)[p];
      RecipientsKeyAt(recipients[..m], n, f, p);
      assert recipients[..m][n] == recipients[n];
    } else {
      var q := p - |front|;
      assert block[q] == RecipientsEntries(recipients)[p];
      RecipientKeyInjective(m, RecipientFields[q], n, f);
    }
  }

  /** The rows of one recipient have different labels. */
  lemma RecipientEntriesUnique(k: int, recipient: Json)
    ensures UniqueKeys(RecipientEntries(k, recipient))
  {
    var e := RecipientEntries(k, recipient);
    forall i, j | 0 <= i < j < |e| ensures e[i].0 != e[j].0 {
      if e[i].0 == e[j].0 {
        RecipientKeyInjective(k, RecipientFields[i], k, RecipientFields[j]);
      }
    }
  }

  /** Adding a recipient adds its rows at the end. */
  lemma Step3EntriesSnoc(legalRep: Json, recipients: seq<Json>, n: int)
    requires 0 <= n < |recipients|
    ensures Step3Entries(legalRep, recipients[..n + 1])
      == Step3Entries(legalRep, recipients[..n]) + RecipientEntries(n, recipients[n])
  {
    var rs := recipients[..n + 1];
    assert rs[..n] == recipients[..n];
    assert rs[n] == recipients[n];
    assert RecipientsEntries(rs) == RecipientsEntries(recipients[..n]) + RecipientEntries(n, recipients[n]);
    AppendAssoc(LegalRepEntries(legalRep), RecipientsEntries(recipients[..n]), RecipientEntries(n, recipients[n]));
  }

  /** The rows of recipient `n` have labels that no row before them has. */
  lemma Step3BlockApart(legalRep: Json, recipients: seq<Json>, n: int, p: int, q: int)
    requires n == |recipients|
    requires 0 <= p < |Step3Entries(legalRep, recipients)|
    requires 0 <= q < |RecipientFields|
    ensures Step3Entries(legalRep, recipients)[p].0 != RecipientKey(n, RecipientFields[q])
  {
    var legal := LegalRepEntries(legalRep);
    var front := RecipientsEntries(recipients);
    var a := Step3Entries(legalRep, recipients);
    assert a == legal + front;
    if p < |legal| {
      LegalRepKeysApart(n, RecipientFields[q]);
      assert a[p] == legal[p];
    } else {
      assert a[p] == front[p - |legal|];
      if a[p].0 == RecipientKey(n, RecipientFields[q]) {
        RecipientsKeyAt(recipients, n, RecipientFields[q], p - |legal|);
        assert false;
      }
    }
  }

  /** No assignment of the step-3 loop overwrites an earlier row: every
      label is used once. */
  lemma {:induction false} Step3EntriesUnique(legalRep: Json, recipients: seq<Json>)
    ensures UniqueKeys(Step3Entries(legalRep, recipients))
    decreases |recipients|
  {
    if recipients == [] {
      assert Step3Entries(legalRep, recipients) == LegalRepEntries(legalRep);
    } else {
      var n := |recipients| - 1;
      Step3EntriesUnique(legalRep, recipients[..n]);
      var a := Step3Entries(legalRep, recipients[..n]);
      var b := RecipientEntries(n, recipients[n]);
      Step3EntriesSnoc(legalRep, recipients, n);
      assert recipients[..n + 1] == recipients;
      RecipientEntriesUnique(n, recipients[n]);
      forall p, q | 0 <= p < |a| && 0 <= q < |b| ensures a[p].0 != b[q].0 {
        Step3BlockApart(legalRep, recipients[..n], n, p, q);
      }
      UniqueKeysConcat(a, b);
    }
  }

  /** The recipients' rows for a prefix of the list start the rows of the
      whole list. */
  lemma {:induction false} RecipientsEntriesPrefix(recipients: seq<Json>, m: int)
    requires 0 <= m <= |recipients|
    ensures RecipientsEntries(recipients[..m]) <= RecipientsEntries(recipients)
    decreases |recipients|
  {
    if m < |recipients| {
      var n := |recipients| - 1;
      RecipientsEntriesPrefix(recipients[..n], m);
      assert recipients[..n][..m] == recipients[..m];
    } else {
      assert recipients[..m] == recipients;
    }
  }

  /** The rows of recipient `k` sit, in order, after the rows of the
      recipients before it. */
  lemma Step3BlockAt(legalRep: Json, recipients: seq<Json>, k: int, q: int)
    requires 0 <= k < |recipients|
    requires 0 <= q < |RecipientEntries(k, recipients[k])|
    ensures |Step3Entries(legalRep, recipients[..k])| + q < |Step3Entries(legalRep, recipients)|
    ensures Step3Entries(legalRep, recipients)[|Step3Entries(legalRep, recipients[..k])| + q]
      == RecipientEntries(k, recipients[k])[q]
  {
    var before := Step3Entries(legalRep, recipients[..k]);
    var block := RecipientEntries(k, recipients[k]);
    var legal := LegalRepEntries(legalRep);
    Step3EntriesSnoc(legalRep, recipients, k);
    RecipientsEntriesPrefix(recipients, k + 1);
    var upto := RecipientsEntries(recipients[..k + 1]);
    var all := RecipientsEntries(recipients);
    assert legal + upto <= legal + all;
    PrefixBlockIndex(before, block, Step3Entries(legalRep, recipients), q);
  }

  /** No recipient without an alternate telephone has an alternate
      telephone row. */
  lemma Step3NoAltRow(legalRep: Json, recipients: seq<Json>, k: int)
    requires 0 <= k < |recipients| && !HasAltPhone(recipients[k])
    ensures !HasKey(Step3Entries(legalRep, recipients), RecipientKey(k, "Alternate Telephone Number"))
  {
    var whole := Step3Entries(legalRep, recipients);
    var alt := RecipientKey(k, "Alternate Telephone Number");
    var legal := LegalRepEntries(legalRep);
    var front := RecipientsEntries(recipients);
    LegalRepKeysApart(k, "Alternate Telephone Number");
    forall p | 0 <= p < |front| ensures front[p].0 != alt {
      RecipientsNoAltRow(recipients, k, p);
    }
    NoKeyConcat(legal, front, alt);
  }

  /** No row of the recipients' part is the alternate telephone row of a
      recipient without an alternate telephone. */
  lemma RecipientsNoAltRow(recipients: seq<Json>, k: int, p: int)
    requires 0 <= k < |recipients| && !HasAltPhone(recipients[k])
    requires 0 <= p < |RecipientsEntries(recipients)|
    ensures RecipientsEntries(recipients)[p].0 != RecipientKey(k, "Alternate Telephone Number")
  {
    if RecipientsEntries(recipients)[p].0 == RecipientKey(k, "Alternate Telephone Number") {
      RecipientsKeyAt(recipients, k, "Alternate Telephone Number", p);
      RecipientFieldsDistinct();
      assert false;
    }
  }

  /** What the step-3 panel says about the recipient at index `k`: its
      name, or "N/A"; and an alternate telephone row exactly when its
      alternate telephone is not blank, holding that telephone. */
  lemma Step3RecipientRows(legalRep: Json, recipients: seq<Json>, k: int)
    requires 0 <= k < |recipients|
    ensures Get(Step3Entries(legalRep, recipients), RecipientKey(k, "Name"))
      == Some(MemberOr(recipients[k], "name", NotAvailable))
    ensures HasKey(Step3Entries(legalRep, recipients), RecipientKey(k, "Alternate Telephone Number"))
      <==> HasAltPhone(recipients[k])
    ensures HasAltPhone(recipients[k]) ==>
      Get(Step3Entries(legalRep, recipients), RecipientKey(k, "Alternate Telephone Number"))
        == Member(recipients[k], "altPhone")
  {
    var whole := Step3Entries(legalRep, recipients);
    Step3EntriesUnique(legalRep, recipients);
    var at := |Step3Entries(legalRep, recipients[..k])|;
    Step3BlockAt(legalRep, recipients, k, 0);
    RecipientRow(k, recipients[k], 0);
    GetAt(whole, at);
    if HasAltPhone(recipients[k]) {
      Step3BlockAt(legalRep, recipients, k, 3);
      RecipientRow(k, recipients[k], 3);
      AltPhoneKept(recipients[k]);
      GetAt(whole, at + 3);
    } else {
      Step3NoAltRow(legalRep, recipients, k);
    }
  }

  /** The step-3 panel starts with the legal representative's five rows
      when there is one, and has no legal-representative row otherwise. */
  lemma Step3LegalRepFirst(legalRep: Json, recipients: seq<Json>)
    ensures Truthy(legalRep) ==>
      && Step3Entries(legalRep, recipients)[..5] == LegalRepEntries(legalRep)
      && Get(Step3Entries(legalRep, recipients), "Legal Representative Name")
        == Some(MemberOr(legalRep, "name", NotAvailable))
    ensures !Truthy(legalRep) ==> Step3Entries(legalRep, recipients) == RecipientsEntries(recipients)
  {
    if Truthy(legalRep) {
      Step3EntriesUnique(legalRep, recipients);
      GetAt(Step3Entries(legalRep, recipients), 0);
    }
  }

  /** One `formattedData[label] = legalRep.prop || "N/A"` of the
      `if (legalRep)` block: the row at position `q`. */
  method AssignLegalRepRow(formatted: Props<Json>, legalRep: Json, q: nat) returns (r: Props<Json>)
    requires Truthy(legalRep) && q < 5
    requires formatted == LegalRepEntries(legalRep)[..q]
    ensures r == LegalRepEntries(legalRep)[..q + 1]
  {
    r := Put(formatted, LegalRepRowLabels[q], MemberOr(legalRep, LegalRepProps[q], NotAvailable));
    Step3EntriesUnique(legalRep, []);
    assert Step3Entries(legalRep, []) == LegalRepEntries(legalRep);
    PutNext(LegalRepEntries(legalRep), q);
  }

  /** The `if (legalRep)` block of `populateReview`: the legal
      representative's five rows, assigned into an empty object. */
  method FormatLegalRep(legalRep: Json) returns (formatted: Props<Json>)
    ensures formatted == LegalRepEntries(legalRep)
  {
    formatted := [];
    if Truthy(legalRep) {
      ghost var e := LegalRepEntries(legalRep);
      assert e[..0] == formatted;
      formatted := AssignLegalRepRow(formatted, legalRep, 0);
      formatted := AssignLegalRepRow(formatted, legalRep, 1);
      formatted := AssignLegalRepRow(formatted, legalRep, 2);
      formatted := AssignLegalRepRow(formatted, legalRep, 3);
      formatted := AssignLegalRepRow(formatted, legalRep, 4);
      assert e[..5] == e;
    }
  }

  /** One of the name, address and telephone assignments of the
      `mailRecipients.forEach` callback: the row at position `q` of the
      recipient's block, after the rows before it. */
  method AssignRecipientRow(formatted: Props<Json>, r: Props<Json>, index: int, recipient: Json, q: nat)
      returns (r': Props<Json>)
    requires UniqueKeys(formatted + RecipientEntries(index, recipient)) && q < 3
    requires r == formatted + RecipientEntries(index, recipient)[..q]
    ensures r' == formatted + RecipientEntries(index, recipient)[..q + 1]
  {
    r' := Put(r, RecipientKey(index, RecipientFields[q]), MemberOr(recipient, RecipientProps[q], NotAvailable));
    PutAppend(formatted, RecipientEntries(index, recipient), q);
  }

  /** The `if (recipient.altPhone)` assignment of the callback: the
      alternate telephone row after the first three. */
  method AssignAltPhoneRow(formatted: Props<Json>, r: Props<Json>, index: int, recipient: Json)
      returns (r': Props<Json>)
    requires UniqueKeys(formatted + RecipientEntries(index, recipient))
    requires HasAltPhone(recipient)
    requires r == formatted + RecipientEntries(index, recipient)[..3]
    ensures r' == formatted + RecipientEntries(index, recipient)
  {
    AltPhoneKept(recipient);
    r' := Put(r, RecipientKey(index, RecipientFields[3]), Member(recipient, RecipientProps[3]).value);
    var block := RecipientEntries(index, recipient);
    PutAppend(formatted, block, 3);
    assert block[..4] == block;
  }

  /** The three assignments every recipient gets: name, address and
      telephone. */
  method AssignRequiredRows(formatted: Props<Json>, index: int, recipient: Json) returns (r: Props<Json>)
    requires UniqueKeys(formatted + RecipientEntries(index, recipient))
    ensures r == formatted + RecipientEntries(index, recipient)[..3]
  {
    assert formatted + RecipientEntries(index, recipient)[..0] == formatted;
    r := AssignRecipientRow(formatted, formatted, index, recipient, 0);
    r := AssignRecipientRow(formatted, r, index, recipient, 1);
    r := AssignRecipientRow(formatted, r, index, recipient, 2);
  }

  /** One call of the `mailRecipients.forEach` callback: assigns the rows
      of the recipient at `index`; none of their labels is in use yet. */
  method FormatRecipient(formatted: Props<Json>, index: int, recipient: Json) returns (r: Props<Json>)
    requires UniqueKeys(formatted + RecipientEntries(index, recipient))
    ensures r == formatted + RecipientEntries(index, recipient)
  {
    r := AssignRequiredRows(formatted, index, recipient);
    if HasAltPhone(recipient) {
      r := AssignAltPhoneRow(formatted, r, index, recipient);
    } else {
      assert RecipientEntries(index, recipient)[..3] == RecipientEntries(index, recipient);
    }
  }

  /** The step-3 part of `populateReview`: the legal representative's
      rows, then each recipient's, in order. */
  method FormatStep3(legalRep: Json, recipients: seq<Json>) returns (formatted: Props<Json>)
    ensures formatted == Step3Entries(legalRep, recipients)
  {
    formatted := FormatLegalRep(legalRep);
    assert formatted == Step3Entries(legalRep, recipients[..0]);
    var i := 0;
    while i < |recipients|
      invariant 0 <= i <= |recipients|
      invariant formatted == Step3Entries(legalRep, recipients[..i])
    {
      Step3EntriesSnoc(legalRep, recipients, i);
      Step3EntriesUnique(legalRep, recipients[..i + 1]);
      formatted := FormatRecipient(formatted, i, recipients[i]);
      i := i + 1;
    }
    assert recipients[..i] == recipients;
  }

  // The other steps: stored fields under question labels

  /** The label of the field at `index`: the step's own label there when
      it has a non-empty one, the page's label for the field otherwise. */
  function QuestionLabel(labels: seq<string>, labelFor: string -> string, index: int, key: string): string {
    if 0 <= index < |labels| && labels[index] != "" then labels[index] else labelFor(key)
  }

  /** `formattedData` after the `Object.keys(data).forEach` loop: each field
      assigned, in order, under its question label. */
  function LabelledEntries(fields: Props<Json>, labels: seq<string>, labelFor: string -> string): Props<Json>
    decreases |fields|
  {
    if fields == [] then []
    else
      var n := |fields| - 1;
      Put(LabelledEntries(fields[..n], labels, labelFor), QuestionLabel(labels, labelFor, n, fields[n].0), fields[n].1)
  }

  /** A field shows its value under its label unless a later field has the
      same label and overwrites it. */
  lemma {:induction false} LabelledLastWins(fields: Props<Json>, labels: seq<string>, labelFor: string -> string, i: int)
    requires 0 <= i < |fields|
    requires forall j :: i < j < |fields| ==>
      QuestionLabel(labels, labelFor, j, fields[j].0) != QuestionLabel(labels, labelFor, i, fields[i].0)
    ensures Get(LabelledEntries(fields, labels, labelFor), QuestionLabel(labels, labelFor, i, fields[i].0)) == Some(fields[i].1)
    decreases |fields|
  {
    var n := |fields| - 1;
    var front := fields[..n];
    var key := QuestionLabel(labels, labelFor, i, fields[i].0);
    var last := QuestionLabel(labels, labelFor, n, fields[n].0);
    var before := LabelledEntries(front, labels, labelFor);
    var after := Put(before, last, fields[n].1);
    assert LabelledEntries(fields, labels, labelFor) == after;
    if i < n {
      assert Get(before, key) == Some(fields[i].1) by {
        assert front[i] == fields[i];
        forall j | i < j < |front|
          ensures QuestionLabel(labels, labelFor, j, front[j].0) != key
        {
          assert front[j] == fields[j];
        }
        LabelledLastWins(front, labels, labelFor, i);
      }
      assert last != key;
      GetPut(before, last, fields[n].1, key);
    } else {
      assert i == n;
      assert Get(after, key) == Some(fields[i].1);
    }
  }

  /** Every row shown comes from a field, under that field's label. */
  lemma {:induction false} LabelledFromFields(fields: Props<Json>, labels: seq<string>, labelFor: string -> string, p: int)
    requires 0 <= p < |LabelledEntries(fields, labels, labelFor)|
    ensures exists j ::
      && 0 <= j < |fields|
      && LabelledEntries(fields, labels, labelFor)[p] == (QuestionLabel(labels, labelFor, j, fields[j].0), fields[j].1)
    decreases |fields|
  {
    var n := |fields| - 1;
    var front := LabelledEntries(fields[..n], labels, labelFor);
    var r := LabelledEntries(fields, labels, labelFor);
    var last := (QuestionLabel(labels, labelFor, n, fields[n].0), fields[n].1);
    assert r == Put(front, last.0, last.1);
    if r[p] == last {
      assert r[p] == (QuestionLabel(labels, labelFor, n, fields[n].0), fields[n].1);
    } else {
      PutFrom(front, last.0, last.1, p);
      var p' :| 0 <= p' < |front| && front[p'] == r[p];
      LabelledFromFields(fields[..n], labels, labelFor, p');
      var j :| 0 <= j < n && front[p'] == (QuestionLabel(labels, labelFor, j, fields[..n][j].0), fields[..n][j].1);
      assert fields[..n][j] == fields[j];
      assert r[p] == (QuestionLabel(labels, labelFor, j, fields[j].0), fields[j].1);
    }
  }

  /** Labelling one more field assigns it after the fields before it. */
  lemma LabelledEntriesSnoc(fields: Props<Json>, labels: seq<string>, labelFor: string -> string, i: int)
    requires 0 <= i < |fields|
    ensures LabelledEntries(fields[..i + 1], labels, labelFor)
      == Put(LabelledEntries(fields[..i], labels, labelFor), QuestionLabel(labels, labelFor, i, fields[i].0), fields[i].1)
  {
    var prefix := fields[..i + 1];
    assert prefix[..i] == fields[..i];
    assert prefix[i] == fields[i];
  }

  /** The `Object.keys(data).forEach` loop of `populateReview`. */
  method LabelFields(fields: Props<Json>, labels: seq<string>, labelFor: string -> string) returns (formatted: Props<Json>)
    ensures formatted == LabelledEntries(fields, labels, labelFor)
  {
    formatted := [];
    var i := 0;
    while i < |fields|
      invariant 0 <= i <= |fields|
      invariant formatted == LabelledEntries(fields[..i], labels, labelFor)
    {
      formatted := Put(formatted, QuestionLabel(labels, labelFor, i, fields[i].0), fields[i].1);
      LabelledEntriesSnoc(fields, labels, labelFor, i);
      i := i + 1;
    }
    assert fields[..i] == fields;
  }

  /** The properties of a stored object, in order. The steps only ever
      store objects under their keys; for any other value the model reads
      no properties, where `Object.entries` would list a string's or an
      array's indices. */
  function ObjectFields(data: Json): Props<Json> {
    if data.JObj? then data.props else []
  }

  /** What `JSON.parse` guarantees of an object: no key twice. */
  predicate Parsed(data: Json) {
    data.JObj? ==> UniqueKeys(data.props)
  }

  // The panels

  /** The panel of a step whose record is truthy. */
  function StepPanel(step: ReviewStep, store: DataManager, labelFor: string -> string): (p: ReviewPanel)
    reads store
    requires step.stepNum == 5 ==> Parsed(store.GetData(step.storageKey))
    ensures p.title == step.title && p.editIndex == step.stepNum
  {
    if step.stepNum == 3 then
      ReviewPanel(step.title,
        Step3Entries(store.GetData(LegalRepKey), ArrayItems(store.GetData(MailRecipientsKey))), step.stepNum, None)
    else
      var data := store.GetData(step.storageKey);
      var docs := Member(data, DocumentsKey);
      if step.stepNum == 5 && docs.Some? && Truthy(docs.value) then
        ReviewPanel(step.title, LabelledEntries(Delete(ObjectFields(data), DocumentsKey), step.labels, labelFor),
          step.stepNum, Some(Attachments(docs.value)))
      else
        ReviewPanel(step.title, LabelledEntries(ObjectFields(data), step.labels, labelFor), step.stepNum, None)
  }

  predicate DocumentsParsed(steps: seq<ReviewStep>, store: DataManager)
    reads store
  {
    forall k :: 0 <= k < |steps| && steps[k].stepNum == 5 ==> Parsed(store.GetData(steps[k].storageKey))
  }

  /** The panels for `steps`: one for each step whose record is truthy, in
      order. */
  function PanelsOf(steps: seq<ReviewStep>, store: DataManager, labelFor: string -> string): seq<ReviewPanel>
    reads store
    requires DocumentsParsed(steps, store)
    decreases |steps|
  {
    if steps == [] then []
    else
      var n := |steps| - 1;
      assert DocumentsParsed(steps[..n], store) by {
        forall k | 0 <= k < n && steps[..n][k].stepNum == 5 ensures Parsed(store.GetData(steps[..n][k].storageKey)) {
          assert steps[..n][k] == steps[k];
        }
      }
      var front := PanelsOf(steps[..n], store, labelFor);
      if Truthy(store.GetData(steps[n].storageKey)) then front + [StepPanel(steps[n], store, labelFor)] else front
  }

  lemma DocumentsParsedPrefix(steps: seq<ReviewStep>, store: DataManager, m: int)
    requires DocumentsParsed(steps, store) && 0 <= m <= |steps|
    ensures DocumentsParsed(steps[..m], store)
  {
    forall k | 0 <= k < m && steps[..m][k].stepNum == 5 ensures Parsed(store.GetData(steps[..m][k].storageKey)) {
      assert steps[..m][k] == steps[k];
    }
  }

  /** The panels of one more step: its panel is added at the end when its
      record is truthy. */
  lemma PanelsOfSnoc(steps: seq<ReviewStep>, store: DataManager, labelFor: string -> string)
    requires DocumentsParsed(steps, store) && steps != []
    ensures DocumentsParsed(steps[..|steps| - 1], store)
    ensures var n := |steps| - 1;
      PanelsOf(steps, store, labelFor)
        == PanelsOf(steps[..n], store, labelFor)
          + (if Truthy(store.GetData(steps[n].storageKey)) then [StepPanel(steps[n], store, labelFor)] else [])
  {
    DocumentsParsedPrefix(steps, store, |steps| - 1);
  }

  /** The same, for the prefixes a loop over `steps` walks through. */
  lemma PanelsOfPrefixStep(steps: seq<ReviewStep>, store: DataManager, labelFor: string -> string, i: int)
    requires DocumentsParsed(steps, store) && 0 <= i < |steps|
    ensures DocumentsParsed(steps[..i], store) && DocumentsParsed(steps[..i + 1], store)
    ensures PanelsOf(steps[..i + 1], store, labelFor)
      == PanelsOf(steps[..i], store, labelFor)
        + (if Truthy(store.GetData(steps[i].storageKey)) then [StepPanel(steps[i], store, labelFor)] else [])
  {
    DocumentsParsedPrefix(steps, store, i + 1);
    var next := steps[..i + 1];
    PanelsOfSnoc(next, store, labelFor);
    assert next[..i] == steps[..i] && next[i] == steps[i];
  }

  /** Every panel is the panel of one of the steps. */
  lemma {:induction false} PanelsOfOrigin(steps: seq<ReviewStep>, store: DataManager, labelFor: string -> string)
    requires DocumentsParsed(steps, store)
    ensures var ps := PanelsOf(steps, store, labelFor);
      forall i :: 0 <= i < |ps| ==> exists k :: 0 <= k < |steps| && ps[i] == StepPanel(steps[k], store, labelFor)
    decreases |steps|
  {
    if steps != [] {
      var n := |steps| - 1;
      var front := steps[..n];
      PanelsOfSnoc(steps, store, labelFor);
      PanelsOfOrigin(front, store, labelFor);
      var fs := PanelsOf(front, store, labelFor);
      var ps := PanelsOf(steps, store, labelFor);
      forall i | 0 <= i < |ps|
        ensures exists k :: 0 <= k < |steps| && ps[i] == StepPanel(steps[k], store, labelFor)
      {
        if i < |fs| {
          var k :| 0 <= k < n && fs[i] == StepPanel(front[k], store, labelFor);
          assert front[k] == steps[k];
          assert ps[i] == fs[i];
        } else {
          assert ps[i] == StepPanel(steps[n], store, labelFor);
        }
      }
    }
  }

  /** The panels follow the step order when the step numbers increase. */
  lemma {:induction false} PanelsOfOrdered(steps: seq<ReviewStep>, store: DataManager, labelFor: string -> string)
    requires DocumentsParsed(steps, store)
    requires forall i, j :: 0 <= i < j < |steps| ==> steps[i].stepNum < steps[j].stepNum
    ensures var ps := PanelsOf(steps, store, labelFor);
      forall i, j :: 0 <= i < j < |ps| ==> ps[i].editIndex < ps[j].editIndex
    decreases |steps|
  {
    if steps != [] {
      var n := |steps| - 1;
      var front := steps[..n];
      PanelsOfSnoc(steps, store, labelFor);
      PanelsOfOrdered(front, store, labelFor);
      PanelsOfOrigin(front, store, labelFor);
      var fs := PanelsOf(front, store, labelFor);
      forall i | 0 <= i < |fs| ensures fs[i].editIndex < steps[n].stepNum {
        var k :| 0 <= k < n && fs[i] == StepPanel(front[k], store, labelFor);
        assert front[k] == steps[k];
      }
    }
  }

  /** Steps without a record are skipped and every other step has its
      panel. */
  lemma {:induction false} PanelsOfPresence(steps: seq<ReviewStep>, store: DataManager, labelFor: string -> string)
    requires DocumentsParsed(steps, store)
    requires forall i, j :: 0 <= i < j < |steps| ==> steps[i].stepNum < steps[j].stepNum
    ensures var ps := PanelsOf(steps, store, labelFor);
      forall k :: 0 <= k < |steps| ==>
        (Truthy(store.GetData(steps[k].storageKey)) <==> StepPanel(steps[k], store, labelFor) in ps)
    decreases |steps|
  {
    if steps != [] {
      var n := |steps| - 1;
      var front := steps[..n];
      PanelsOfSnoc(steps, store, labelFor);
      PanelsOfPresence(front, store, labelFor);
      PanelsOfOrigin(front, store, labelFor);
      var fs := PanelsOf(front, store, labelFor);
      var ps := PanelsOf(steps, store, labelFor);
      var last := StepPanel(steps[n], store, labelFor);
      forall k | 0 <= k < |steps|
        ensures Truthy(store.GetData(steps[k].storageKey)) <==> StepPanel(steps[k], store, labelFor) in ps
      {
        if k < n {
          assert front[k] == steps[k];
        } else {
          assert k == n;
        }
      }
    }
  }

  /** The panels of the review page. */
  function ReviewPanels(store: DataManager, labelFor: string -> string): seq<ReviewPanel>
    reads store
    requires Parsed(store.GetData("stepData_5"))
  {
    PanelsOf(ReviewSteps, store, labelFor)
  }

  /** On the review page each of the five steps has a panel exactly when
      it has a record, at most one, in step order. */
  lemma ReviewSkipsEmptySteps(store: DataManager, labelFor: string -> string)
    requires Parsed(store.GetData("stepData_5"))
    ensures var ps := ReviewPanels(store, labelFor);
      && |ps| <= |ReviewSteps|
      && (forall k :: 0 <= k < |ReviewSteps| ==>
            (Truthy(store.GetData(ReviewSteps[k].storageKey)) <==> StepPanel(ReviewSteps[k], store, labelFor) in ps))
      && (forall i, j :: 0 <= i < j < |ps| ==> ps[i].editIndex < ps[j].editIndex)
  {
    PanelsOfPresence(ReviewSteps, store, labelFor);
    PanelsOfOrdered(ReviewSteps, store, labelFor);
    PanelsOfLength(ReviewSteps, store, labelFor);
  }

  lemma {:induction false} PanelsOfLength(steps: seq<ReviewStep>, store: DataManager, labelFor: string -> string)
    requires DocumentsParsed(steps, store)
    ensures |PanelsOf(steps, store, labelFor)| <= |steps|
    decreases |steps|
  {
    if steps != [] {
      var n := |steps| - 1;
      assert DocumentsParsed(steps[..n], store) by {
        forall k | 0 <= k < n && steps[..n][k].stepNum == 5 ensures Parsed(store.GetData(steps[..n][k].storageKey)) {
          assert steps[..n][k] == steps[k];
        }
      }
      PanelsOfLength(steps[..n], store, labelFor);
    }
  }

  /** When step 5 has documents, they appear only in the sub-table: every
      row of its panel holds the value of another stored field. */
  lemma DocumentsOnlyInSubTable(store: DataManager, labelFor: string -> string)
    requires Parsed(store.GetData("stepData_5"))
    requires var docs := Member(store.GetData("stepData_5"), DocumentsKey); docs.Some? && Truthy(docs.value)
    ensures var data := store.GetData("stepData_5");
      var p := StepPanel(ReviewSteps[4], store, labelFor);
      && p.subTable == Some(Attachments(Member(data, DocumentsKey).value))
      && forall q :: 0 <= q < |p.data| ==>
           exists j :: 0 <= j < |data.props| && data.props[j].0 != DocumentsKey && data.props[j].1 == p.data[q].1
  {
    var data := store.GetData("stepData_5");
    var step := ReviewSteps[4];
    var p := StepPanel(step, store, labelFor);
    assert p.data == LabelledEntries(Delete(data.props, DocumentsKey), step.labels, labelFor);
    forall q | 0 <= q < |p.data|
      ensures exists j :: 0 <= j < |data.props| && data.props[j].0 != DocumentsKey && data.props[j].1 == p.data[q].1
    {
      LabelledDeletedOrigin(data.props, DocumentsKey, step.labels, labelFor, q);
    }
  }

  /** Every row labelled from the fields left after deleting `key` holds
      the value of a field other than `key`. */
  lemma LabelledDeletedOrigin(fields: Props<Json>, key: string, labels: seq<string>, labelFor: string -> string, q: int)
    requires UniqueKeys(fields)
    requires 0 <= q < |LabelledEntries(Delete(fields, key), labels, labelFor)|
    ensures exists j ::
      && 0 <= j < |fields| && fields[j].0 != key
      && fields[j].1 == LabelledEntries(Delete(fields, key), labels, labelFor)[q].1
  {
    var rest := Delete(fields, key);
    var row := LabelledEntries(rest, labels, labelFor)[q];
    LabelledFromFields(rest, labels, labelFor, q);
    var i :| 0 <= i < |rest| && row == (QuestionLabel(labels, labelFor, i, rest[i].0), rest[i].1);
    assert rest[i] in fields;
    var j :| 0 <= j < |fields| && fields[j] == rest[i];
  }

  /** `Step5Handler`: the panels in the review container. */
  class Step5Handler {
    const store: DataManager
    const labelFor: string -> string
    var panels: seq<ReviewPanel>

    /** The constructor fills the review page straight away. */
    constructor (store: DataManager, labelFor: string -> string)
      requires Parsed(store.GetData("stepData_5"))
      ensures this.store == store && this.labelFor == labelFor
      ensures panels == ReviewPanels(store, labelFor)
    {
      this.store := store;
      this.labelFor := labelFor;
      panels := [];
      new;
      PopulateReview();
    }

    /** The body of the `steps.forEach` callback for a step whose record
        is truthy: the rows and sub-table of its panel. */
    method BuildPanel(step: ReviewStep) returns (panel: ReviewPanel)
      requires step.stepNum == 5 ==> Parsed(store.GetData(step.storageKey))
      ensures panel == StepPanel(step, store, labelFor)
    {
      var data := store.GetData(step.storageKey);
      var formatted: Props<Json>;
      var subTable: Option<SubTable> := None;
      if step.stepNum == 3 {
        var legalRep := store.GetData(LegalRepKey);
        var recipients := ArrayItems(store.GetData(MailRecipientsKey));
        formatted := FormatStep3(legalRep, recipients);
      } else {
        var fields := ObjectFields(data);
        var docs := Member(data, DocumentsKey);
        if step.stepNum == 5 && docs.Some? && Truthy(docs.value) {
          subTable := Some(Attachments(docs.value));
          fields := Delete(fields, DocumentsKey);
        }
        formatted := LabelFields(fields, step.labels, labelFor);
      }
      panel := ReviewPanel(step.title, formatted, step.stepNum, subTable);
    }

    /** `populateReview`: clears the container, then adds the panel of
        each step that has a record. */
    method PopulateReview()
      requires Parsed(store.GetData("stepData_5"))
      modifies this
      ensures panels == ReviewPanels(store, labelFor)
    {
      panels := [];
      assert DocumentsParsed(ReviewSteps, store);
      DocumentsParsedPrefix(ReviewSteps, store, 0);
      var i := 0;
      while i < |ReviewSteps|
        invariant 0 <= i <= |ReviewSteps|
        invariant DocumentsParsed(ReviewSteps[..i], store)
        invariant panels == PanelsOf(ReviewSteps[..i], store, labelFor)
      {
        var step := ReviewSteps[i];
        PanelsOfPrefixStep(ReviewSteps, store, labelFor, i);
        var data := store.GetData(step.storageKey);
        if Truthy(data) {
          var panel := BuildPanel(step);
          panels := panels + [panel];
        }
        i := i + 1;
      }
      assert ReviewSteps[..i] == ReviewSteps;
    }
  }
}
