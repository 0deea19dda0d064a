/**
 * The quarantine endpoints of the web service (backend/main.py): a keyed
 * in-memory store of held emails, read by a list endpoint and a
 * get-by-id endpoint. Only these two reads exist; nothing in the service
 * adds, approves or deletes entries.
 */
module QuarantineApi {
  import opened Wrappers
  import opened Http

  /** `EmailMeta`; the amount is kept in cents. */
  datatype EmailMeta = EmailMeta(subject: string, sender: string, amount: int)

  /** A stored entry: the fields of `EmailContent`. */
  datatype StoredEmail = StoredEmail(meta: EmailMeta, content: string, status: string)

  /** `QuarantinedEmail`: a stored entry together with its id. */
  datatype QuarantinedEmail = QuarantinedEmail(id: string, meta: EmailMeta, content: string, status: string)

  const DefaultStatus: string := "held"

  /** Building an `EmailContent`: the status is `"held"` unless one is given. */
  function NewEmailContent(meta: EmailMeta, content: string, status: Option<string>): (e: StoredEmail)
    ensures e.meta == meta && e.content == content
    ensures status.None? ==> e.status == "held"
    ensures status.Some? ==> e.status == status.value
  {
    StoredEmail(meta, content, if status.Some? then status.value else DefaultStatus)
  }

  /** An entry as the endpoints answer it: its fields plus the id it is stored under. */
  function Tagged(id: string, e: StoredEmail): QuarantinedEmail {
    QuarantinedEmail(id, e.meta, e.content, e.status)
  }

  /** The answer of the list endpoint for a store: every entry tagged with its own key. */
  function Listing(store: map<string, StoredEmail>): (r: map<string, QuarantinedEmail>)
    ensures r.Keys == store.Keys
    ensures forall id :: id in r ==> r[id].id == id
  {
    map id | id in store :: Tagged(id, store[id])
  }

  /** The answer of the get endpoint for a store. */
  function Lookup(store: map<string, StoredEmail>, id: string): (r: Result<QuarantinedEmail, HttpError>)
    ensures r.Failure? <==> id !in store
    ensures r.Failure? ==> r.error == HttpError(404, "Email not found")
    ensures r.Success? ==>
      && r.value.id == id && r.value.meta == store[id].meta
      && r.value.content == store[id].content && r.value.status == store[id].status
  {
    if id !in store then Failure(HttpError(404, "Email not found"))
    else Success(Tagged(id, store[id]))
  }

  /** List and get agree: every listed entry is what getting its key answers. */
  lemma ListingMatchesLookup(store: map<string, StoredEmail>, id: string)
    requires id in Listing(store)
    ensures Lookup(store, id) == Success(Listing(store)[id])
  {
  }

  /** The module-level store `quarantine_store`. */
  class QuarantineStore {
    var emails: map<string, StoredEmail>

    constructor()
      ensures emails == map[]
    {
      emails := map[];
    }

    /** `GET /quarantine` */
    method ListQuarantinedEmails() returns (r: map<string, QuarantinedEmail>)
      ensures r.Keys == emails.Keys
      ensures forall id :: id in r ==> r[id] == Tagged(id, emails[id])
    {
      r := map id | id in emails :: Tagged(id, emails[id]);
    }

    /** `GET /quarantine/{email_id}` */
    method GetQuarantinedEmail(id: string) returns (r: Result<QuarantinedEmail, HttpError>)
      ensures r == Lookup(emails, id)
    {
      if id !in emails {
        return Failure(HttpError(404, "Email not found"));
      }
      var data := emails[id];
      r := Success(QuarantinedEmail(id, data.meta, data.content, data.status));
    }
  }
}
