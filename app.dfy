/** The page component's state and its handlers, one `App` object per
    mounted page. */
module Portfolio {
  import opened ContactForm
  import opened Navigation

  class App {
    /** The `activeTab` state. */
    var activeTab: string
    /** The `formData` state. */
    var formData: FormData
    /** The `formStatus` state. */
    var formStatus: Status

    /** Requests posted to the relay whose answer has not been handled yet. */
    ghost var inFlight: nat
    /** Status resets scheduled with the timer that have not fired yet. */
    ghost var pendingResets: nat

    /** The form part of the state, as the reference state machine sees it. */
    ghost function Form(): FormState
      reads this
    {
      FormState(formData, formStatus)
    }

    /** The state hooks' initial values. */
    constructor ()
      ensures activeTab == Home
      ensures formData == FormData("", "", "") && formStatus == Idle
      ensures Form() == Initial
      ensures inFlight == 0 && pendingResets == 0
    {
      activeTab := Home;
      formData := Empty;
      formStatus := Idle;
      inFlight := 0;
      pendingResets := 0;
    }

    /** A navigation click: the tab moves at once, before any scrolling. */
    method ScrollToSection(id: string)
      modifies this`activeTab
      ensures activeTab == id
    {
      activeTab := id;
    }

    /** The observer callback walking one batch of entries in order. */
    method OnIntersections(entries: seq<Entry>)
      modifies this`activeTab
      ensures activeTab == Settle(old(activeTab), entries)
    {
      var i := 0;
      while i < |entries|
        invariant 0 <= i <= |entries|
        invariant activeTab == Settle(old(activeTab), entries[..i])
      {
        assert entries[..i + 1][..i] == entries[..i];
        if entries[i].isIntersecting {
          activeTab := entries[i].target;
        }
        i := i + 1;
      }
      assert entries[..i] == entries;
    }

    /** The input-change handler: one field takes the input's new value. */
    method HandleInputChange(field: Field, value: string)
      modifies this`formData
      ensures Get(formData, field) == value
      ensures forall g :: g != field ==> Get(formData, g) == Get(old(formData), g)
      ensures Form() == Step(old(Form()), Edit(field, value))
    {
      formData := UpdateField(formData, field, value);
    }

    /** The submit handler up to the request: the guard, the switch to
        `sending`, and the body it posts. `request` is the posted body, or
        None when the guard stops the submission. */
    method BeginSubmit() returns (request: Option<Body>)
      modifies this`formStatus, this`inFlight
      ensures request.Some? <==> CanSubmit(formData)
      ensures request.Some? ==> request.value == RequestBody(formData) && formStatus == Sending
      ensures request.None? ==> formStatus == old(formStatus)
      ensures inFlight == old(inFlight) + (if request.Some? then 1 else 0)
      ensures Form() == Step(old(Form()), Submit)
    {
      if !CanSubmit(formData) {
        return None;
      }
      formStatus := Sending;
      inFlight := inFlight + 1;
      request := Some(RequestBody(formData));
    }

    /** The submit handler after the request: the outcome sets the status,
        a success clears the fields, and either way one reset is scheduled. */
    method CompleteSubmit(outcome: Outcome)
      requires inFlight > 0
      modifies this`formData, this`formStatus, this`inFlight, this`pendingResets
      ensures formStatus == StatusAfter(outcome)
      ensures formData == (if outcome == Ok then FormData("", "", "") else old(formData))
      ensures inFlight == old(inFlight) - 1
      ensures pendingResets == old(pendingResets) + 1
      ensures Form() == Step(old(Form()), Respond(outcome))
    {
      formStatus := StatusAfter(outcome);
      if outcome == Ok {
        formData := Empty;
      }
      inFlight := inFlight - 1;
      pendingResets := pendingResets + 1;
    }

    /** A scheduled reset firing: the status goes back to `idle` whatever it
        is by then. */
    method TimerReset()
      requires pendingResets > 0
      modifies this`formStatus, this`pendingResets
      ensures formStatus == Idle
      ensures pendingResets == old(pendingResets) - 1
      ensures Form() == Step(old(Form()), ResetTimer)
    {
      formStatus := Idle;
      pendingResets := pendingResets - 1;
    }
  }

  /** A user who submits twice before the first answer arrives posts two
      requests: neither the handler nor the button stops the second one. */
  method DoubleSubmission()
  {
    var app := new App();
    app.HandleInputChange(Email, "ada@example.com");
    app.HandleInputChange(Message, "Hello");
    var first := app.BeginSubmit();
    assert app.formStatus == Sending;
    var second := app.BeginSubmit();
    assert first.Some? && second.Some? && app.inFlight == 2;
    app.CompleteSubmit(NotOk);
    assert app.formStatus == Error;
    app.CompleteSubmit(Ok);
    assert app.formStatus == Success && app.pendingResets == 2;
    app.TimerReset();
    app.TimerReset();
    assert app.formStatus == Idle && app.formData == Empty;
  }

  /** Navigation and the form do not interfere: a batch of observer entries
      leaves the form alone, and form handlers leave the tab alone. */
  method IndependentControllers(entries: seq<Entry>)
  {
    var app := new App();
    app.HandleInputChange(Name, "Ada");
    var tab := app.activeTab;
    var f := app.formData;
    var request := app.BeginSubmit();
    assert request.None? && app.activeTab == tab && app.formStatus == Idle;
    app.OnIntersections(entries);
    assert app.formData == f;
    app.ScrollToSection("work");
    assert app.activeTab == "work";
  }
}
