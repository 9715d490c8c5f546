/** `Step3Handler`: the legal representative (a single record kept under
    `legalRepresentative`) and the ordered mail recipients (kept under
    `mailRecipients`), added, edited and deleted through one lightbox form. */
module Representatives {
  import opened Base
  import opened Objects
  import opened Text
  import opened Json
  import opened Storage
  import opened Lightbox

  const LegalRepKey := "legalRepresentative"
  const MailRecipientsKey := "mailRecipients"

  /** The properties of a representative record, in the order they are
      written. */
  const RepKeys: seq<string> := ["name", "address", "phone", "altPhone", "role"]

  /** `${v}` for a form-data entry: a missing one prints as "undefined". */
  function Interpolate(v: Option<string>): string {
    match v
    case Some(s) => s
    case None => "undefined"
  }

  /** The mailing address `handleFormSubmit` composes from the form: three
      lines joined by `<br>` for an address in Canada, the free-form address
      otherwise, and nothing when no country was chosen. */
  function ComposeAddress(fd: Props<string>): (a: Option<string>)
    ensures a.Some? <==> Get(fd, "s3-country") == Some("Canada") || Get(fd, "s3-country") == Some("Outside of Canada")
    ensures Get(fd, "s3-country") == Some("Canada") ==>
      a.value == Interpolate(Get(fd, "s3-caddress")) + "<br>" + CityLine(fd) + "<br>Canada"
    ensures Get(fd, "s3-country") == Some("Outside of Canada") ==>
      a.value == Interpolate(Get(fd, "s3-rep-iaddress"))
  {
    var country := Get(fd, "s3-country");
    if country == Some("Canada") then
      Some(Interpolate(Get(fd, "s3-caddress")) + "<br>" + CityLine(fd) + "<br>Canada")
    else if country == Some("Outside of Canada") then
      Some(Interpolate(Get(fd, "s3-rep-iaddress")))
    else None
  }

  /** The middle line of a Canadian address: `city, province postcode`. */
  function CityLine(fd: Props<string>): string {
    Interpolate(Get(fd, "s3-repcity")) + ", " + Interpolate(Get(fd, "s3-repprov")) + " "
    + Interpolate(Get(fd, "s3-reppostcode"))
  }

  /** The record `handleFormSubmit` builds: the five properties of RepKeys
      in that order, each the form's entry or null when it is missing or
      empty; the address is the composed one, or null. */
  function NewRepresentative(fd: Props<string>): (r: Json)
    ensures r.JObj?
  {
    JObj([
      ("name", StrOrNull(Get(fd, "s3-repname"))),
      ("address", StrOrNull(ComposeAddress(fd))),
      ("phone", StrOrNull(Get(fd, "s3-reptel1"))),
      ("altPhone", StrOrNull(Get(fd, "s3-reptel2"))),
      ("role", StrOrNull(Get(fd, "s3-reprole")))])
  }

  /** The submitted record has the five properties of RepKeys, once each,
      each holding the form's entry or null. */
  lemma NewRepresentativeFields(fd: Props<string>)
    ensures var r := NewRepresentative(fd);
      Keys(r.props) == RepKeys && UniqueKeys(r.props)
    ensures var r := NewRepresentative(fd);
      && Get(r.props, "name") == Some(StrOrNull(Get(fd, "s3-repname")))
      && Get(r.props, "address") == Some(StrOrNull(ComposeAddress(fd)))
      && Get(r.props, "phone") == Some(StrOrNull(Get(fd, "s3-reptel1")))
      && Get(r.props, "altPhone") == Some(StrOrNull(Get(fd, "s3-reptel2")))
      && Get(r.props, "role") == Some(StrOrNull(Get(fd, "s3-reprole")))
  {
    var props := NewRepresentative(fd).props;
    assert Keys(props) == RepKeys;
    GetAt(props, 0);
    GetAt(props, 1);
    GetAt(props, 2);
    GetAt(props, 3);
    GetAt(props, 4);
  }

  /** A submitted representative always has a mailing address when the form
      says the address is in Canada, and has none when no country was
      chosen. */
  lemma AddressPresence(fd: Props<string>)
    ensures Member(NewRepresentative(fd), "address").Some?
    ensures var addr := Member(NewRepresentative(fd), "address").value;
      && (Get(fd, "s3-country") == Some("Canada") ==> Truthy(addr))
      && (Get(fd, "s3-country") != Some("Canada") && Get(fd, "s3-country") != Some("Outside of Canada") ==> addr == JNull)
  {
    NewRepresentativeFields(fd);
    var a := ComposeAddress(fd);
    if Get(fd, "s3-country") == Some("Canada") {
      assert |a.value| > 0 by {
        assert a.value == Interpolate(Get(fd, "s3-caddress")) + "<br>" + CityLine(fd) + "<br>Canada";
      }
    }
  }

  /** The label each property of a representative is shown with. */
  function FieldLabel(key: string): string {
    if key == "name" then "Name"
    else if key == "address" then "Mailing address"
    else if key == "phone" then "Telephone number"
    else if key == "altPhone" then "Alternate telephone number"
    else if key == "role" then "Role"
    else key
  }

  /** `getMailRecipientLabels`: a label for every property. */
  function MailRecipientLabels(): (labels: seq<string>)
    ensures |labels| == |RepKeys|
  {
    ["Name", "Mailing address", "Telephone number", "Alternate telephone number", "Role"]
  }

  /** `getLegalRepLabels`: a user of level 3 sees labels for the name and
      the address only; every other user sees all five. */
  function LegalRepLabels(userLevel: int): (labels: seq<string>)
    ensures labels <= MailRecipientLabels()
    ensures |labels| == if userLevel == 3 then 2 else |RepKeys|
  {
    if userLevel == 3 then ["Name", "Mailing address"] else MailRecipientLabels()
  }

  /** Panels label a record's properties by position; the labels line up
      with the properties of a submitted representative. */
  lemma LabelsMatchFields(userLevel: int, i: int)
    requires 0 <= i < |LegalRepLabels(userLevel)|
    ensures LegalRepLabels(userLevel)[i] == FieldLabel(RepKeys[i])
    ensures MailRecipientLabels()[i] == FieldLabel(RepKeys[i])
  {
  }

  /** `parseInt(getData("userLevel")) || 2`: `parseInt` with no radix
      reads the stored value as text; NaN and 0 both give 2. */
  function UserLevel(stored: Json): (level: int)
    ensures level != 0
    ensures stored.JNum? ==> level == (if stored.n != 0 then stored.n else 2)
    ensures stored.JStr? ==>
      level == (if ParseIntAuto(stored.s).GetOr(0) != 0 then ParseIntAuto(stored.s).value else 2)
    ensures stored.JArr? && |stored.items| == 1 && stored.items[0].JNum? ==>
      level == (if stored.items[0].n != 0 then stored.items[0].n else 2)
    ensures stored.JNull? || stored.JBool? || stored.JObj? ==> level == 2
  {
    ParseStoredText(stored);
    var parsed := ParseIntAuto(JsText(stored));
    if parsed.Some? && parsed.value != 0 then parsed.value else 2
  }

  /** One panel `updateRepresentativePanels` renders. */
  datatype RepPanel = RepPanel(
    title: string, data: Json, index: EditTarget,
    editButton: bool, deleteButton: bool, labels: seq<string>)

  function RecipientPanel(k: nat, recipient: Json): RepPanel {
    RepPanel("Mail recipient " + IntToString(k + 1), recipient, Position(k), true, true, MailRecipientLabels())
  }

  /** The legal representative's panel: editable and deletable except for
      a level-3 user. */
  function LegalRepPanel(legalRep: Json, userLevel: int): RepPanel {
    RepPanel("Legal representative", legalRep, LegalRep, userLevel != 3, userLevel != 3, LegalRepLabels(userLevel))
  }

  /** The panels `updateRepresentativePanels` renders: the legal
      representative's when there is one, then one per mail recipient. */
  function RepresentativePanels(legalRep: Json, recipients: seq<Json>, userLevel: int): (ps: seq<RepPanel>)
    ensures |ps| == (if Truthy(legalRep) then 1 else 0) + |recipients|
  {
    (if Truthy(legalRep) then [LegalRepPanel(legalRep, userLevel)] else []) + RecipientPanels(recipients)
  }

  /** The legal representative's panel comes first when there is one, and
      recipient `k` has the panel numbered `k + 1` after it. */
  lemma RepresentativePanelsLayout(legalRep: Json, recipients: seq<Json>, userLevel: int)
    ensures var ps := RepresentativePanels(legalRep, recipients, userLevel);
      Truthy(legalRep) ==> ps[0] == LegalRepPanel(legalRep, userLevel)
    ensures var ps := RepresentativePanels(legalRep, recipients, userLevel);
      var offset := if Truthy(legalRep) then 1 else 0;
      forall k :: 0 <= k < |recipients| ==> ps[offset + k] == RecipientPanel(k, recipients[k])
  {
    var tail := RecipientPanels(recipients);
    if Truthy(legalRep) {
      var head := [LegalRepPanel(legalRep, userLevel)];
      assert forall k :: 0 <= k < |recipients| ==> (head + tail)[1 + k] == tail[k];
    } else {
      assert [] + tail == tail;
    }
  }

  /** One panel per mail recipient, in order. */
  function RecipientPanels(recipients: seq<Json>): (ps: seq<RepPanel>)
    ensures |ps| == |recipients|
    ensures forall k :: 0 <= k < |recipients| ==> ps[k] == RecipientPanel(k, recipients[k])
  {
    seq(|recipients|, k requires 0 <= k < |recipients| => RecipientPanel(k, recipients[k]))
  }

  /** Every edit or delete request a rendered panel can send names a record
      that exists: the sentinel only while there is a legal representative,
      a position only within the recipients. This is what makes the valid
      index a fair precondition of the handlers below. */
  lemma {:induction false} PanelTargetsValid(legalRep: Json, recipients: seq<Json>, userLevel: int, p: int)
    requires 0 <= p < |RepresentativePanels(legalRep, recipients, userLevel)|
    ensures var t := RepresentativePanels(legalRep, recipients, userLevel)[p].index;
      (t == LegalRep && Truthy(legalRep)) || (t.Position? && 0 <= t.i < |recipients|)
  {
    var offset := if Truthy(legalRep) then 1 else 0;
    RepresentativePanelsLayout(legalRep, recipients, userLevel);
    if p >= offset {
      assert RepresentativePanels(legalRep, recipients, userLevel)[p] == RecipientPanel(p - offset, recipients[p - offset]);
    }
  }

  class Step3Handler {
    const store: DataManager
    const lightbox: FormLightbox
    const userLevel: int
    var legalRep: Json
    var mailRecipients: seq<Json>

    /** The handler's copies agree with the store. */
    ghost predicate Valid()
      reads this, store
    {
      && mailRecipients == ArrayItems(store.GetData(MailRecipientsKey))
      && (legalRep == store.GetData(LegalRepKey) || (legalRep == JNull && !Truthy(store.GetData(LegalRepKey))))
    }

    /** `new Step3Handler()`: reads the user level, the legal representative
        and the mail recipients from the store, and owns a new lightbox. */
    constructor (store: DataManager)
      ensures Valid() && this.store == store && fresh(lightbox)
      ensures !lightbox.isOpen && lightbox.editIndex == None
      ensures userLevel == UserLevel(store.GetData("userLevel"))
      ensures legalRep == if Truthy(store.GetData(LegalRepKey)) then store.GetData(LegalRepKey) else JNull
    {
      this.store := store;
      userLevel := UserLevel(store.GetData("userLevel"));
      var stored := store.GetData(LegalRepKey);
      legalRep := if Truthy(stored) then stored else JNull;
      mailRecipients := ArrayItems(store.GetData(MailRecipientsKey));
      lightbox := new FormLightbox();
    }

    /** `DataManager.saveData(key, value)`, with this handler's `dataUpdated`
        listener, which runs during the save and reloads both copies when
        the key is one of its two. */
    method SaveData(key: string, value: Json)
      modifies store, this`legalRep, this`mailRecipients
      ensures store.items == old(store.items)[key := value]
      ensures store.notices == old(store.notices) + [key]
      ensures key == LegalRepKey || key == MailRecipientsKey ==>
        legalRep == store.GetData(LegalRepKey) && mailRecipients == ArrayItems(store.GetData(MailRecipientsKey))
      ensures key != LegalRepKey && key != MailRecipientsKey ==>
        legalRep == old(legalRep) && mailRecipients == old(mailRecipients)
    {
      store.SaveData(key, value);
      if key == LegalRepKey || key == MailRecipientsKey {
        legalRep := store.GetData(LegalRepKey);
        mailRecipients := ArrayItems(store.GetData(MailRecipientsKey));
      }
    }

    /** `handleFormSubmit(formData)`. With no edit index the record becomes
        the legal representative when there is none, and is appended to the
        mail recipients otherwise. The sentinel replaces the legal
        representative; a position replaces that recipient in place. An
        edit clears the edit index. */
    method HandleFormSubmit(fd: Props<string>)
      requires Valid()
      requires lightbox.editIndex.Some? && lightbox.editIndex.value.Position? ==>
        0 <= lightbox.editIndex.value.i < |mailRecipients|
      modifies store, this`legalRep, this`mailRecipients, lightbox
      ensures Valid()
      ensures lightbox.editIndex == None && lightbox.isOpen == old(lightbox.isOpen)
      ensures var rep := NewRepresentative(fd);
        match old(lightbox.editIndex)
        case None =>
          if !Truthy(old(legalRep)) then
            && legalRep == rep && mailRecipients == old(mailRecipients)
            && store.items == old(store.items)[LegalRepKey := rep]
            && store.notices == old(store.notices) + [LegalRepKey]
          else
            && legalRep == old(store.GetData(LegalRepKey)) && mailRecipients == old(mailRecipients) + [rep]
            && store.items == old(store.items)[MailRecipientsKey := JArr(old(mailRecipients) + [rep])]
            && store.notices == old(store.notices) + [MailRecipientsKey]
        case Some(LegalRep) =>
          && legalRep == rep && mailRecipients == old(mailRecipients)
          && store.items == old(store.items)[LegalRepKey := rep]
          && store.notices == old(store.notices) + [LegalRepKey]
        case Some(Position(i)) =>
          && legalRep == old(store.GetData(LegalRepKey)) && mailRecipients == old(mailRecipients)[i := rep]
          && |mailRecipients| == |old(mailRecipients)|
          && store.items == old(store.items)[MailRecipientsKey := JArr(old(mailRecipients)[i := rep])]
          && store.notices == old(store.notices) + [MailRecipientsKey]
      ensures Truthy(old(legalRep)) ==> Truthy(legalRep)
    {
      var editIndex := lightbox.GetEditIndex();
      var rep := NewRepresentative(fd);
      if editIndex.Some? {
        if editIndex.value == LegalRep {
          SaveLegalRep(rep);
        } else {
          SaveRecipients(mailRecipients[editIndex.value.i := rep]);
        }
        lightbox.ClearEditIndex();
      } else {
        if !Truthy(legalRep) {
          SaveLegalRep(rep);
        } else {
          SaveRecipients(mailRecipients + [rep]);
        }
      }
    }

    /** `saveData(LEGAL_REP_KEY, rep)` of a record: both copies follow the
        store. */
    method SaveLegalRep(rep: Json)
      requires Valid() && Truthy(rep)
      modifies store, this`legalRep, this`mailRecipients
      ensures Valid()
      ensures legalRep == rep && mailRecipients == old(mailRecipients)
      ensures store.items == old(store.items)[LegalRepKey := rep]
      ensures store.notices == old(store.notices) + [LegalRepKey]
    {
      SaveData(LegalRepKey, rep);
    }

    /** `this.mailRecipients = recipients` followed by
        `saveData(MAIL_RECIPIENTS_KEY, recipients)`: the legal
        representative stays as truthy as it was. */
    method SaveRecipients(recipients: seq<Json>)
      requires Valid()
      modifies store, this`legalRep, this`mailRecipients
      ensures Valid()
      ensures mailRecipients == recipients && legalRep == old(store.GetData(LegalRepKey))
      ensures Truthy(old(legalRep)) ==> Truthy(legalRep)
      ensures store.items == old(store.items)[MailRecipientsKey := JArr(recipients)]
      ensures store.notices == old(store.notices) + [MailRecipientsKey]
    {
      mailRecipients := recipients;
      SaveData(MailRecipientsKey, JArr(recipients));
    }

    /** The lightbox's submit button: `sendFormData` dispatches the form to
        `handleFormSubmit`, which runs to completion and reads the edit
        index first, and only then `closeLightbox` clears it. */
    method SubmitLightbox(fd: Props<string>)
      requires Valid()
      requires lightbox.editIndex.Some? && lightbox.editIndex.value.Position? ==>
        0 <= lightbox.editIndex.value.i < |mailRecipients|
      modifies store, this`legalRep, this`mailRecipients, lightbox
      ensures Valid()
      ensures !lightbox.isOpen && lightbox.editIndex == None
      ensures var rep := NewRepresentative(fd);
        match old(lightbox.editIndex)
        case None =>
          if !Truthy(old(legalRep)) then
            && legalRep == rep && mailRecipients == old(mailRecipients)
            && store.items == old(store.items)[LegalRepKey := rep]
            && store.notices == old(store.notices) + [LegalRepKey]
          else
            && legalRep == old(store.GetData(LegalRepKey)) && mailRecipients == old(mailRecipients) + [rep]
            && store.items == old(store.items)[MailRecipientsKey := JArr(old(mailRecipients) + [rep])]
            && store.notices == old(store.notices) + [MailRecipientsKey]
        case Some(LegalRep) =>
          && legalRep == rep && mailRecipients == old(mailRecipients)
          && store.items == old(store.items)[LegalRepKey := rep]
          && store.notices == old(store.notices) + [LegalRepKey]
        case Some(Position(i)) =>
          && legalRep == old(store.GetData(LegalRepKey)) && mailRecipients == old(mailRecipients)[i := rep]
          && |mailRecipients| == |old(mailRecipients)|
          && store.items == old(store.items)[MailRecipientsKey := JArr(old(mailRecipients)[i := rep])]
          && store.notices == old(store.notices) + [MailRecipientsKey]
      ensures Truthy(old(legalRep)) ==> Truthy(legalRep)
    {
      HandleFormSubmit(fd);
      lightbox.CloseLightbox();
    }

    /** `editPanelData(index)`: opens the lightbox on the record and
        remembers which one is being edited. Returns the record the form is
        filled from. */
    method EditPanelData(index: EditTarget) returns (shown: Json)
      requires index == LegalRep ==> Truthy(legalRep)
      requires index.Position? ==> 0 <= index.i < |mailRecipients|
      modifies lightbox
      ensures lightbox.isOpen && lightbox.editIndex == Some(index)
      ensures shown == if index == LegalRep then legalRep else mailRecipients[index.i]
    {
      shown := if index == LegalRep then legalRep else mailRecipients[index.i];
      lightbox.OpenLightbox();
      lightbox.SetEditIndex(index);
    }

    /** `deletePanelData(index)`. The sentinel clears the legal
        representative from the store, without a notice. A position is
        removed with `splice`, so later recipients move down by one, and
        the array is saved. */
    method DeletePanelData(index: EditTarget)
      requires Valid()
      modifies store, this`legalRep, this`mailRecipients
      ensures Valid()
      ensures index == LegalRep ==>
        && legalRep == JNull && mailRecipients == old(mailRecipients)
        && store.items == old(store.items) - {LegalRepKey}
        && store.notices == old(store.notices)
      ensures index.Position? ==>
        && mailRecipients == SpliceOne(old(mailRecipients), index.i)
        && Truthy(legalRep) == Truthy(old(legalRep))
        && legalRep == old(store.GetData(LegalRepKey))
        && store.items == old(store.items)[MailRecipientsKey := JArr(SpliceOne(old(mailRecipients), index.i))]
        && store.notices == old(store.notices) + [MailRecipientsKey]
      ensures index.Position? && 0 <= index.i < |old(mailRecipients)| ==>
        && |mailRecipients| == |old(mailRecipients)| - 1
        && mailRecipients == old(mailRecipients)[..index.i] + old(mailRecipients)[index.i + 1..]
    {
      if index == LegalRep {
        store.ClearData(LegalRepKey);
        legalRep := JNull;
      } else {
        var recipients := SpliceOne(mailRecipients, index.i);
        mailRecipients := recipients;
        SaveData(MailRecipientsKey, JArr(recipients));
      }
    }
  }
}
