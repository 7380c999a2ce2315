/** The contact form of the portfolio page as values: its three fields, the
    submission status, the body posted to the form relay, and a reference
    state machine of the form handlers that the App class is proved against. */
module ContactForm {

  datatype Option<T> = None | Some(value: T)

  /** The three inputs of the form, told apart by their `name` attribute. */
  datatype Field = Name | Email | Message

  /** The `formData` state: one string per input. */
  datatype FormData = FormData(name: string, email: string, message: string)

  /** The `formStatus` state. */
  datatype Status = Idle | Sending | Success | Error

  /** What the request to the relay came back with: a response whose `ok`
      flag is set, a response whose `ok` flag is clear, or a thrown exception. */
  datatype Outcome = Ok | NotOk | Exception

  /** The value `formData` starts with and is reset to after a success. */
  const Empty := FormData("", "", "")

  /** The `name` attribute of an input, which is also its key in `formData`. */
  function Key(g: Field): string
  {
    match g
    case Name => "name"
    case Email => "email"
    case Message => "message"
  }

  function Get(f: FormData, g: Field): string
  {
    match g
    case Name => f.name
    case Email => f.email
    case Message => f.message
  }

  /** The updater handed to `setFormData` by the input-change handler: the
      record with the one field named by the input overwritten. */
  function UpdateField(f: FormData, g: Field, v: string): (r: FormData)
    ensures Get(r, g) == v
    ensures forall h :: h != g ==> Get(r, h) == Get(f, h)
  {
    match g
    case Name => f.(name := v)
    case Email => f.(email := v)
    case Message => f.(message := v)
  }

  /** The value of a field is all there is to a form record. */
  lemma FormDataExtensional(f: FormData, f': FormData)
    requires forall g :: Get(f, g) == Get(f', g)
    ensures f == f'
  {
    assert Get(f, Name) == Get(f', Name);
    assert Get(f, Email) == Get(f', Email);
    assert Get(f, Message) == Get(f', Message);
  }

  lemma UpdatesToDistinctFieldsCommute(f: FormData, a: Field, va: string, b: Field, vb: string)
    requires a != b
    ensures UpdateField(UpdateField(f, a, va), b, vb) == UpdateField(UpdateField(f, b, vb), a, va)
  {
  }

  lemma LaterUpdateOfFieldWins(f: FormData, g: Field, v: string, w: string)
    ensures UpdateField(UpdateField(f, g, v), g, w) == UpdateField(f, g, w)
  {
  }

  /** One keystroke: the input that changed and its new value. */
  datatype Update = Update(field: Field, value: string)

  /** A queue of updaters applied in order, as React drains queued state
      updates. */
  function ApplyUpdates(f: FormData, us: seq<Update>): FormData
    decreases us
  {
    if us == [] then f else ApplyUpdates(UpdateField(f, us[0].field, us[0].value), us[1..])
  }

  /** The value last written to field `g` by `us`, or `default` when `us`
      never writes `g`. */
  function LastValue(us: seq<Update>, g: Field, default: string): string
  {
    if us == [] then default
    else if us[|us| - 1].field == g then us[|us| - 1].value
    else LastValue(us[..|us| - 1], g, default)
  }

  /** Peeling off the first update: it only decides the result when no later
      update writes the same field. */
  lemma {:induction false} LastValueFirst(us: seq<Update>, g: Field, default: string)
    requires us != []
    ensures LastValue(us, g, default)
         == LastValue(us[1..], g, if us[0].field == g then us[0].value else default)
  {
    var n := |us|;
    if n > 1 {
      var init := us[..n - 1];
      assert init[1..] == us[1..][..n - 2];
      assert init[0] == us[0];
      LastValueFirst(init, g, default);
    }
  }

  /** After any sequence of keystrokes every field holds the last value set
      for it, or its old value if it was never touched. */
  lemma {:induction false} ApplyUpdatesLastWins(f: FormData, us: seq<Update>, g: Field)
    ensures Get(ApplyUpdates(f, us), g) == LastValue(us, g, Get(f, g))
    decreases us
  {
    if us != [] {
      var f' := UpdateField(f, us[0].field, us[0].value);
      ApplyUpdatesLastWins(f', us[1..], g);
      LastValueFirst(us, g, Get(f, g));
    }
  }

  /** The order of keystrokes matters only through the last value of each
      field: two sequences that agree on those leave the same record. */
  lemma ApplyUpdatesOrderIndependent(f: FormData, us: seq<Update>, vs: seq<Update>)
    requires forall g, d :: LastValue(us, g, d) == LastValue(vs, g, d)
    ensures ApplyUpdates(f, us) == ApplyUpdates(f, vs)
  {
    forall g ensures Get(ApplyUpdates(f, us), g) == Get(ApplyUpdates(f, vs), g) {
      ApplyUpdatesLastWins(f, us, g);
      ApplyUpdatesLastWins(f, vs, g);
    }
    FormDataExtensional(ApplyUpdates(f, us), ApplyUpdates(f, vs));
  }

  /** The guard of the submit handler: email and message must be non-empty
      (empty strings are falsy); the name is not looked at. */
  predicate CanSubmit(f: FormData)
  {
    f.email != "" && f.message != ""
  }

  const SubjectPrefix := "Portfolio Message from "

  /** The `_subject` line of the request body. */
  function Subject(name: string): (s: string)
    ensures SubjectName(s) == Some(name)
  {
    assert (SubjectPrefix + name)[..|SubjectPrefix|] == SubjectPrefix;
    assert (SubjectPrefix + name)[|SubjectPrefix|..] == name;
    SubjectPrefix + name
  }

  /** Reads the sender's name back out of a subject line. */
  function SubjectName(s: string): Option<string>
  {
    if |SubjectPrefix| <= |s| && s[..|SubjectPrefix|] == SubjectPrefix
    then Some(s[|SubjectPrefix|..])
    else None
  }

  /** Every subject line that names someone is the subject line of that name. */
  lemma SubjectNameInverse(s: string, name: string)
    requires SubjectName(s) == Some(name)
    ensures Subject(name) == s
  {
  }

  lemma SubjectInjective(a: string, b: string)
    requires Subject(a) == Subject(b)
    ensures a == b
  {
  }

  /** A JSON object as its members in order. */
  type Body = seq<(string, string)>

  /** The object posted to the relay: the form's members in `formData`'s key
      order, then `_subject`. */
  function RequestBody(f: FormData): Body
  {
    [(Key(Name), f.name), (Key(Email), f.email), (Key(Message), f.message), ("_subject", Subject(f.name))]
  }

  /** The value of the first member named `key`. */
  function Lookup(b: Body, key: string): Option<string>
  {
    if b == [] then None
    else if b[0].0 == key then Some(b[0].1)
    else Lookup(b[1..], key)
  }

  /** The form as the relay reads it back from a body. */
  function DecodeForm(b: Body): Option<FormData>
  {
    match (Lookup(b, "name"), Lookup(b, "email"), Lookup(b, "message"))
    case (Some(n), Some(e), Some(m)) => Some(FormData(n, e, m))
    case _ => None
  }

  /** No member name occurs twice in a body. */
  predicate DistinctKeys(b: Body)
  {
    forall i, j :: 0 <= i < j < |b| ==> b[i].0 != b[j].0
  }

  /** The body carries the form unchanged, and its subject names the sender. */
  lemma RequestBodyRoundTrip(f: FormData)
    ensures DecodeForm(RequestBody(f)) == Some(f)
    ensures Lookup(RequestBody(f), "_subject") == Some(Subject(f.name))
    ensures DistinctKeys(RequestBody(f))
  {
    var b := RequestBody(f);
    var b1, b2, b3 := b[1..], b[1..][1..], b[1..][1..][1..];
    assert b1 == [(Key(Email), f.email), (Key(Message), f.message), ("_subject", Subject(f.name))];
    assert b2 == [(Key(Message), f.message), ("_subject", Subject(f.name))];
    assert b3 == [("_subject", Subject(f.name))];
    assert Lookup(b3, "_subject") == Some(Subject(f.name));
    assert Lookup(b2, "message") == Some(f.message);
    assert Lookup(b2, "_subject") == Some(Subject(f.name));
    assert Lookup(b1, "email") == Some(f.email);
    assert Lookup(b1, "message") == Some(f.message);
    assert Lookup(b1, "_subject") == Some(Subject(f.name));
    assert Lookup(b, "name") == Some(f.name);
    assert Lookup(b, "email") == Some(f.email);
    assert Lookup(b, "message") == Some(f.message);
  }

  /** The subject of a body names whoever the body is from. */
  lemma RequestBodySubjectNamesSender(f: FormData, s: string)
    requires Lookup(RequestBody(f), "_subject") == Some(s)
    ensures SubjectName(s) == Some(f.name)
  {
    RequestBodyRoundTrip(f);
  }

  /** The status the response handler sets for an outcome. */
  function StatusAfter(o: Outcome): Status
  {
    if o == Ok then Success else Error
  }

  /** What the form holds between handler calls. */
  datatype FormState = FormState(fields: FormData, status: Status)

  const Initial := FormState(Empty, Idle)

  /** The handler calls the form sees: a keystroke, a submit, the relay's
      answer to a request, and a scheduled status reset firing. */
  datatype Event = Edit(field: Field, value: string) | Submit | Respond(outcome: Outcome) | ResetTimer

  /** The reference definition of one handler call. */
  function Step(s: FormState, e: Event): FormState
  {
    match e
    case Edit(g, v) => s.(fields := UpdateField(s.fields, g, v))
    case Submit => if CanSubmit(s.fields) then s.(status := Sending) else s
    case Respond(o) => FormState(if o == Ok then Empty else s.fields, StatusAfter(o))
    case ResetTimer => s.(status := Idle)
  }

  /** Whether a handler call posts a request to the relay. */
  predicate Issues(s: FormState, e: Event)
  {
    e == Submit && CanSubmit(s.fields)
  }

  function Run(s: FormState, evs: seq<Event>): FormState
    decreases evs
  {
    if evs == [] then s else Run(Step(s, evs[0]), evs[1..])
  }

  /** A keystroke changes exactly its own field. */
  lemma EditChangesOneField(s: FormState, g: Field, v: string)
    ensures Step(s, Edit(g, v)).status == s.status
    ensures Get(Step(s, Edit(g, v)).fields, g) == v
    ensures forall h :: h != g ==> Get(Step(s, Edit(g, v)).fields, h) == Get(s.fields, h)
  {
  }

  /** Submitting posts a request exactly when email and message are both
      non-empty, whatever the name and whatever the current status; when it
      does not, nothing changes. */
  lemma SubmitGuard(s: FormState)
    ensures Issues(s, Submit) <==> s.fields.email != "" && s.fields.message != ""
    ensures !Issues(s, Submit) ==> Step(s, Submit) == s
    ensures Issues(s, Submit) ==> Step(s, Submit) == FormState(s.fields, Sending)
  {
  }

  /** An empty name never blocks a submission. */
  lemma EmptyNameSubmits(email: string, message: string, st: Status)
    requires email != "" && message != ""
    ensures Issues(FormState(FormData("", email, message), st), Submit)
  {
  }

  /** Nothing stops a second submission while the first is in flight. */
  lemma ResubmitWhileSending(s: FormState)
    requires s.status == Sending && CanSubmit(s.fields)
    ensures Issues(s, Submit) && Step(s, Submit).status == Sending
  {
  }

  /** The relay's answer: success clears all fields and shows `success`;
      a non-ok response and an exception both show `error` and keep the
      fields. */
  lemma RespondOutcome(s: FormState, o: Outcome)
    ensures Step(s, Respond(o)).status == Success <==> o == Ok
    ensures Step(s, Respond(o)).status == Error <==> o != Ok
    ensures o == Ok ==> Step(s, Respond(o)).fields == Empty
    ensures o != Ok ==> Step(s, Respond(o)).fields == s.fields
  {
  }

  /** The reset returns the status to `idle` from any status and leaves the
      fields alone. */
  lemma ResetIsUnconditional(s: FormState)
    ensures Step(s, ResetTimer) == FormState(s.fields, Idle)
  {
  }

  /** Whether an event can write field `g`. */
  predicate WritesField(e: Event, g: Field)
  {
    e == Respond(Ok) || (e.Edit? && e.field == g)
  }

  /** Fields are cleared only by a successful submission: a field that no
      keystroke touches and no success clears keeps its value. */
  lemma {:induction false} RunKeepsUnwrittenField(s: FormState, evs: seq<Event>, g: Field)
    requires forall i :: 0 <= i < |evs| ==> !WritesField(evs[i], g)
    ensures Get(Run(s, evs).fields, g) == Get(s.fields, g)
    decreases evs
  {
    if evs != [] {
      assert !WritesField(evs[0], g);
      RunKeepsUnwrittenField(Step(s, evs[0]), evs[1..], g);
    }
  }

  /** The status a handler call can leave behind. */
  predicate Produces(e: Event, st: Status)
  {
    match e
    case Edit(_, _) => false
    case Submit => st == Sending
    case Respond(o) => st == StatusAfter(o)
    case ResetTimer => st == Idle
  }

  /** Every status change is caused: after a run the status is either
      unchanged or produced by one of its events; in particular `success`
      is only reached on an ok response. */
  lemma {:induction false} RunStatusOrigin(s: FormState, evs: seq<Event>)
    ensures Run(s, evs).status == s.status
         || exists i :: 0 <= i < |evs| && Produces(evs[i], Run(s, evs).status)
    decreases evs
  {
    if evs != [] {
      var s' := Step(s, evs[0]);
      RunStatusOrigin(s', evs[1..]);
      var r := Run(s, evs).status;
      if r == s'.status && r != s.status {
        assert Produces(evs[0], r);
      } else if r != s'.status {
        var i :| 0 <= i < |evs[1..]| && Produces(evs[1..][i], r);
        assert Produces(evs[1 + i], r);
      }
    }
  }

  lemma SuccessNeedsOkResponse(s: FormState, evs: seq<Event>)
    requires s.status != Success && Run(s, evs).status == Success
    ensures Respond(Ok) in evs
  {
    RunStatusOrigin(s, evs);
    var i :| 0 <= i < |evs| && Produces(evs[i], Success);
    assert evs[i] == Respond(Ok);
  }

  /** The keystrokes a user types before submitting. */
  const AdaKeystrokes := [Edit(Name, "Ada"), Edit(Email, "ada@example.com"), Edit(Message, "Hello")]

  /** Filling in the form and submitting it against a relay that accepts:
      idle, then sending with the subject naming the sender, then success
      with the fields cleared, then idle again. */
  lemma AdaAccepted()
    ensures Run(Initial, AdaKeystrokes).fields == FormData("Ada", "ada@example.com", "Hello")
    ensures Issues(Run(Initial, AdaKeystrokes), Submit)
    ensures Lookup(RequestBody(Run(Initial, AdaKeystrokes).fields), "_subject") == Some("Portfolio Message from Ada")
    ensures Run(Initial, AdaKeystrokes + [Submit]).status == Sending
    ensures Run(Initial, AdaKeystrokes + [Submit, Respond(Ok)]) == FormState(Empty, Success)
    ensures Run(Initial, AdaKeystrokes + [Submit, Respond(Ok), ResetTimer]) == Initial
  {
    var filled := FormData("Ada", "ada@example.com", "Hello");
    RunConcat(Initial, AdaKeystrokes, [Submit, Respond(Ok), ResetTimer]);
    RunConcat(Initial, AdaKeystrokes, [Submit, Respond(Ok)]);
    RunConcat(Initial, AdaKeystrokes, [Submit]);
    assert Run(Initial, AdaKeystrokes) == FormState(filled, Idle) by {
      assert AdaKeystrokes[1..][1..][1..] == [];
    }
    RequestBodyRoundTrip(filled);
    assert Subject("Ada") == "Portfolio Message from Ada";
  }

  /** The same form against a relay that answers with a server error: the
      status shows `error`, the fields are kept for a retry, and the reset
      brings back `idle`. */
  lemma AdaRejected()
    ensures Run(Initial, AdaKeystrokes + [Submit, Respond(NotOk)])
         == FormState(FormData("Ada", "ada@example.com", "Hello"), Error)
    ensures Run(Initial, AdaKeystrokes + [Submit, Respond(NotOk), ResetTimer])
         == FormState(FormData("Ada", "ada@example.com", "Hello"), Idle)
  {
    RunConcat(Initial, AdaKeystrokes, [Submit, Respond(NotOk), ResetTimer]);
    RunConcat(Initial, AdaKeystrokes, [Submit, Respond(NotOk)]);
    assert AdaKeystrokes[1..][1..][1..] == [];
  }

  /** Running two pieces of a history one after the other. */
  lemma {:induction false} RunConcat(s: FormState, a: seq<Event>, b: seq<Event>)
    ensures Run(s, a + b) == Run(Run(s, a), b)
    decreases a
  {
    if a != [] {
      assert (a + b)[1..] == a[1..] + b;
      RunConcat(Step(s, a[0]), a[1..], b);
    } else {
      assert a + b == b;
    }
  }
}
