/** The safety-plan dialogs: an emergency contact (`edit-contact-dialog.tsx`) and a coping
    strategy (`edit-strategy-dialog.tsx`). Each dialog edits an existing record when given one
    and the store and user are there, and otherwise hands the values to its `onSave` callback. */
module Safety {
  import opened Wrappers
  import opened Text

  datatype Contact = Contact(id: string, userProfileId: string, name: string, relationship: string, phone: string)

  /** The three editable fields; also the value `onSave` receives. */
  datatype ContactFields = ContactFields(name: string, relationship: string, phone: string)

  datatype Dialog = Dialog(open: bool, isSaving: bool)

  /** What a submit does: nothing, patch the contact `id`, or call `onSave`. */
  datatype ContactSave = ContactRejected | ContactPatched(id: string, fields: ContactFields)
                       | ContactPassed(fields: ContactFields) | ContactNoOp

  /** Opening the dialog (lines 43-49) loads the contact's fields, or empty strings. */
  function OpenContactForm(contact: Option<Contact>): (f: ContactFields)
    ensures contact.None? ==> f == ContactFields("", "", "")
    ensures contact.Some? ==> f == ContactFields(contact.value.name, contact.value.relationship, contact.value.phone)
  {
    match contact
    case None => ContactFields("", "", "")
    case Some(c) => ContactFields(c.name, c.relationship, c.phone)
  }

  /** `handleSubmit` (lines 51-81). An empty field gives an error and saves nothing. Otherwise a
      given contact is patched with exactly the three fields when the store and the user are
      there; failing that, `onSave` gets the fields if there is one. The dialog closes unless the
      save throws (`fails`), and saving always ends. */
  function SubmitContact(contact: Option<Contact>, f: ContactFields, d: Dialog, storeReady: bool, signedIn: bool,
                         hasOnSave: bool, fails: bool): (r: (ContactSave, Dialog))
    ensures r.0.ContactRejected? <==> f.name == "" || f.relationship == "" || f.phone == ""
    ensures r.0.ContactRejected? ==> r.1 == d
    ensures r.0.ContactPatched? <==> !r.0.ContactRejected? && contact.Some? && storeReady && signedIn && !fails
    ensures r.0.ContactPatched? ==> r.0 == ContactPatched(contact.value.id, f)
    ensures r.0.ContactPassed? ==> r.0.fields == f && hasOnSave
    ensures !r.0.ContactRejected? ==> !r.1.isSaving && (r.1.open <==> d.open && fails)
  {
    if f.name == "" || f.relationship == "" || f.phone == "" then (ContactRejected, d)
    else if fails then (ContactNoOp, Dialog(d.open, false))
    else if contact.Some? && storeReady && signedIn then (ContactPatched(contact.value.id, f), Dialog(false, false))
    else if hasOnSave then (ContactPassed(f), Dialog(false, false))
    else (ContactNoOp, Dialog(false, false))
  }

  /** The stored contact after the patch: only the three fields change. */
  function ApplyContactPatch(c: Contact, f: ContactFields): (r: Contact)
    ensures r.id == c.id && r.userProfileId == c.userProfileId
    ensures OpenContactForm(Some(r)) == f
  {
    c.(name := f.name, relationship := f.relationship, phone := f.phone)
  }

  /** Saving a contact as it was opened leaves it as it was. */
  lemma ContactOpenThenSave(c: Contact, d: Dialog)
    requires c.name != "" && c.relationship != "" && c.phone != ""
    ensures var r := SubmitContact(Some(c), OpenContactForm(Some(c)), d, true, true, false, false);
      r.0.ContactPatched? && ApplyContactPatch(c, r.0.fields) == c
  {
  }

  /** In edit mode without the store or the user and without `onSave`, nothing is written, yet
      the dialog closes as if saved. */
  lemma EditWithoutStoreClosesUnsaved(c: Contact, f: ContactFields, d: Dialog)
    requires f.name != "" && f.relationship != "" && f.phone != ""
    ensures SubmitContact(Some(c), f, d, false, true, false, false) == (ContactNoOp, Dialog(false, false))
  {
  }

  // ---------------------------------------------------------------- coping strategies

  datatype Strategy = Strategy(id: string, userProfileId: string, text: string)

  datatype StrategySave = StrategyRejected | StrategyPatched(id: string, text: string)
                        | StrategyPassed(text: string) | StrategyNoOp

  /** Opening the dialog (lines 41-45) loads the strategy's text, or an empty string. */
  function OpenStrategyForm(strategy: Option<Strategy>): (text: string)
    ensures strategy.None? ==> text == ""
    ensures strategy.Some? ==> text == strategy.value.text
  {
    if strategy.None? then "" else strategy.value.text
  }

  /** `handleSubmit` (lines 47-74): whitespace-only text is refused; otherwise the text as typed,
      not trimmed, patches the strategy (only its `text`) or goes to `onSave`, with the same
      closing rules as the contact dialog. */
  function SubmitStrategy(strategy: Option<Strategy>, text: string, d: Dialog, storeReady: bool, signedIn: bool,
                          hasOnSave: bool, fails: bool): (r: (StrategySave, Dialog))
    ensures r.0.StrategyRejected? <==> IsBlank(text)
    ensures r.0.StrategyRejected? ==> r.1 == d
    ensures r.0.StrategyPatched? <==> !IsBlank(text) && strategy.Some? && storeReady && signedIn && !fails
    ensures r.0.StrategyPatched? ==> r.0 == StrategyPatched(strategy.value.id, text)
    ensures r.0.StrategyPassed? ==> r.0.text == text && hasOnSave
    ensures !r.0.StrategyRejected? ==> !r.1.isSaving && (r.1.open <==> d.open && fails)
  {
    if IsBlank(text) then (StrategyRejected, d)
    else if fails then (StrategyNoOp, Dialog(d.open, false))
    else if strategy.Some? && storeReady && signedIn then (StrategyPatched(strategy.value.id, text), Dialog(false, false))
    else if hasOnSave then (StrategyPassed(text), Dialog(false, false))
    else (StrategyNoOp, Dialog(false, false))
  }

  /** Surrounding spaces are kept: the text saved is the text typed, whatever its padding. */
  lemma StrategyTextNotTrimmed(text: string, d: Dialog)
    requires !IsBlank(text)
    ensures SubmitStrategy(None, " " + text + " ", d, false, false, true, false).0 == StrategyPassed(" " + text + " ")
  {
    PaddedStaysNonBlank(" ", text, " ");
  }
}
