/** The identity provider's webhook, which keeps the user profiles in step
    with the provider's accounts. Signature verification is an input
    (`verified`); every exception, including a failed verification, ends in
    the same 400 answer. */
module WebhookController {
  import opened Collections
  import opened Store

  /** The account fields the handler reads from an event's `data`. A name
      the account does not set arrives as `null` (`None`); an absent
      `resume` is the empty string. */
  datatype Account = Account(
    id: string,
    firstName: Option<string>,
    lastName: Option<string>,
    emails: seq<string>,
    imageUrl: string,
    resume: string)

  datatype Event = Event(kind: string, data: Account)

  /** An empty acknowledgement, or an error answer. */
  datatype WebhookReply = Acknowledged | Rejected(code: int, message: string)

  const VerificationFailed := Rejected(400, "Webhook verification failed")

  /** A name field as string concatenation renders it: `null` becomes the
      text "null". */
  function Rendered(field: Option<string>): (text: string)
    ensures field.Some? ==> text == field.value
    ensures field.None? ==> text == "null"
  {
    match field
    case Some(value) => value
    case None => "null"
  }

  /** `first_name + " " + last_name`: the rendered first name, one space,
      the rendered last name. */
  function DisplayName(data: Account): (name: string)
    ensures |name| == |Rendered(data.firstName)| + 1 + |Rendered(data.lastName)|
    ensures name[..|Rendered(data.firstName)|] == Rendered(data.firstName)
    ensures name[|Rendered(data.firstName)|] == ' '
    ensures name[|Rendered(data.firstName)| + 1..] == Rendered(data.lastName)
  {
    Rendered(data.firstName) + " " + Rendered(data.lastName)
  }

  /** An account without a last name is stored as "<first> null". */
  lemma MissingLastName(data: Account, first: string)
    requires data.firstName == Some(first) && data.lastName.None?
    ensures DisplayName(data) == first + " null"
  {
  }

  /** The profile `user.created` stores: the display name, the first email
      address, the resume carried by the event and the avatar. */
  function NewProfile(data: Account): (u: User)
    requires data.emails != []
    ensures u.name == DisplayName(data) && u.email == data.emails[0]
    ensures u.resume == data.resume && u.image == data.imageUrl
  {
    User(DisplayName(data), data.emails[0], data.resume, data.imageUrl)
  }

  /** The profile after `user.updated`: name, email and avatar are taken
      from the event, the resume is kept. */
  function UpdatedProfile(current: User, data: Account): (u: User)
    requires data.emails != []
    ensures u.resume == current.resume
    ensures u == NewProfile(data).(resume := current.resume)
  {
    current.(name := DisplayName(data), email := data.emails[0], image := data.imageUrl)
  }

  /** An update never loses the resume the seeker uploaded, and it only
      depends on the event and that resume. */
  lemma UpdateKeepsResume(profile: User, data: Account, uploaded: string)
    requires data.emails != []
    ensures UpdatedProfile(profile.(resume := uploaded), data).resume == uploaded
    ensures UpdatedProfile(profile.(resume := uploaded), data) == UpdatedProfile(NewProfile(data), data).(resume := uploaded)
  {
  }

  /** The handler: an unverified request is refused; `user.created` inserts
      the profile under the provider's id (an event without an email
      address, or an id already present, throws); `user.deleted` removes
      the id; `user.updated` rewrites name, email and avatar of an existing
      profile (without an email address it throws; an unknown id changes
      nothing); any other event type is refused. */
  method HandleWebhook(st: Store, verified: bool, event: Event) returns (reply: WebhookReply)
    modifies st`users
    ensures !verified ==> reply == VerificationFailed && st.users == old(st.users)
    ensures verified && event.kind == "user.created" ==>
      if event.data.emails == [] || event.data.id in old(st.users) then
        reply == VerificationFailed && st.users == old(st.users)
      else
        reply == Acknowledged && st.users == old(st.users)[event.data.id := NewProfile(event.data)]
    ensures verified && event.kind == "user.deleted" ==>
      reply == Acknowledged && st.users == old(st.users) - {event.data.id}
    ensures verified && event.kind == "user.updated" ==>
      if event.data.emails == [] then
        reply == VerificationFailed && st.users == old(st.users)
      else if event.data.id in old(st.users) then
        reply == Acknowledged
        && st.users == old(st.users)[event.data.id := UpdatedProfile(old(st.users)[event.data.id], event.data)]
      else
        reply == Acknowledged && st.users == old(st.users)
    ensures verified && event.kind !in {"user.created", "user.deleted", "user.updated"} ==>
      reply == Rejected(400, "Unhandled event type") && st.users == old(st.users)
  {
    if !verified {
      return VerificationFailed;
    }
    var data := event.data;
    if event.kind == "user.created" {
      if data.emails == [] || data.id in st.users {
        return VerificationFailed;
      }
      st.users := st.users[data.id := NewProfile(data)];
      reply := Acknowledged;
    } else if event.kind == "user.deleted" {
      st.users := st.users - {data.id};
      reply := Acknowledged;
    } else if event.kind == "user.updated" {
      if data.emails == [] {
        return VerificationFailed;
      }
      if data.id in st.users {
        st.users := st.users[data.id := UpdatedProfile(st.users[data.id], data)];
      }
      reply := Acknowledged;
    } else {
      reply := Rejected(400, "Unhandled event type");
    }
  }

  /** Creating a profile and then deleting it restores the profiles. */
  lemma CreateThenDelete(users: map<string, User>, data: Account)
    requires data.emails != [] && data.id !in users
    ensures users[data.id := NewProfile(data)] - {data.id} == users
  {
  }
}
