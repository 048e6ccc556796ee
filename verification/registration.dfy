/**
 State of the registration form.

 The form holds seven text fields, an error message, a loading flag and a
 success flag. Typing into a field replaces that field and clears the error.
 Submitting sets loading, clears the error and sends the fields; the request
 then settles in one of three ways (the server accepts, the server refuses
 with an optional message, or the request or its JSON decoding throws), and
 loading ends in every case. The success overlay is dismissed by a button.
 The network call itself is replaced by its outcome.
 */
module Registration {

  datatype Option<T> = None | Some(value: T)

  /** The `name` attributes of the form's inputs. */
  datatype Field = FullName | Age | Email | Phone | Organization | Address | Role

  datatype Fields = Fields(
    fullName: string, age: string, email: string, phone: string,
    organization: string, address: string, role: string)

  const Blank: Fields := Fields("", "", "", "", "", "", "")

  function Get(f: Fields, k: Field): string {
    match k
    case FullName => f.fullName
    case Age => f.age
    case Email => f.email
    case Phone => f.phone
    case Organization => f.organization
    case Address => f.address
    case Role => f.role
  }

  /** `{ ...form, [name]: value }`. */
  function Put(f: Fields, k: Field, v: string): (g: Fields)
    ensures Get(g, k) == v
    ensures forall j :: j != k ==> Get(g, j) == Get(f, j)
  {
    match k
    case FullName => f.(fullName := v)
    case Age => f.(age := v)
    case Email => f.(email := v)
    case Phone => f.(phone := v)
    case Organization => f.(organization := v)
    case Address => f.(address := v)
    case Role => f.(role := v)
  }

  /** Two forms that agree on every field are the same form. */
  lemma FieldsEqual(f: Fields, g: Fields)
    requires forall k :: Get(f, k) == Get(g, k)
    ensures f == g
  {
    assert Get(f, FullName) == Get(g, FullName);
    assert Get(f, Age) == Get(g, Age);
    assert Get(f, Email) == Get(g, Email);
    assert Get(f, Phone) == Get(g, Phone);
    assert Get(f, Organization) == Get(g, Organization);
    assert Get(f, Address) == Get(g, Address);
    assert Get(f, Role) == Get(g, Role);
  }

  /** Writing back what a field already holds changes nothing. */
  lemma PutGet(f: Fields, k: Field)
    ensures Put(f, k, Get(f, k)) == f
  {
    FieldsEqual(Put(f, k, Get(f, k)), f);
  }

  datatype State = State(success: bool, loading: bool, error: string, form: Fields)

  /** The state on first render. */
  const Initial: State := State(false, false, "", Blank)

  /** `handleChange`: clear the error and overwrite the named field. */
  function Change(s: State, name: Field, value: string): (r: State)
    ensures r.error == ""
    ensures Get(r.form, name) == value
    ensures forall k :: k != name ==> Get(r.form, k) == Get(s.form, k)
    ensures r.success == s.success && r.loading == s.loading
  {
    s.(error := "", form := Put(s.form, name, value))
  }

  /** Edits to different fields can be made in either order. */
  lemma ChangesCommute(s: State, a: Field, u: string, b: Field, v: string)
    requires a != b
    ensures Change(Change(s, a, u), b, v) == Change(Change(s, b, v), a, u)
  {
    FieldsEqual(Change(Change(s, a, u), b, v).form, Change(Change(s, b, v), a, u).form);
  }

  /** Only the last edit to a field counts. */
  lemma LastChangeWins(s: State, k: Field, u: string, v: string)
    ensures Change(Change(s, k, u), k, v) == Change(s, k, v)
  {
    FieldsEqual(Change(Change(s, k, u), k, v).form, Change(s, k, v).form);
  }

  /** What the server answered: its `success` flag and its optional `message`. */
  datatype Reply = Reply(success: bool, message: Option<string>)

  /** How the request settled: an answer, or an exception from `fetch` or `res.json()`. */
  datatype Outcome = Replied(reply: Reply) | Threw

  const DEFAULT_FAILURE: string := "Submission failed. Please try again."
  const CANNOT_REACH: string := "Cannot reach the server. Make sure your backend is running on port 5000."

  predicate Accepted(o: Outcome) {
    o.Replied? && o.reply.success
  }

  /** `data.message || "Submission failed. ..."`: an absent or empty message falls back. */
  function FailureText(message: Option<string>): (t: string)
    ensures t != ""
    ensures message.Some? && message.value != "" ==> t == message.value
    ensures message.None? || message.value == "" ==> t == DEFAULT_FAILURE
  {
    match message
    case Some(m) => if m != "" then m else DEFAULT_FAILURE
    case None => DEFAULT_FAILURE
  }

  /** The synchronous start of `handleSubmit`. */
  function BeginSubmit(s: State): (r: State)
    ensures r.loading && r.error == ""
    ensures r.form == s.form && r.success == s.success
  {
    s.(loading := true, error := "")
  }

  /** The end of `handleSubmit`, once the request has settled. */
  function FinishSubmit(s: State, o: Outcome): (r: State)
    ensures !r.loading
    ensures Accepted(o) ==> r.success && (forall k :: Get(r.form, k) == "") && r.error == s.error
    ensures o.Replied? && !o.reply.success ==>
      r.error == FailureText(o.reply.message) && r.form == s.form && r.success == s.success
    ensures o.Threw? ==> r.error == CANNOT_REACH && r.form == s.form && r.success == s.success
  {
    match o
    case Replied(reply) =>
      if reply.success then s.(success := true, form := Blank, loading := false)
      else s.(error := FailureText(reply.message), loading := false)
    case Threw => s.(error := CANNOT_REACH, loading := false)
  }

  /** A whole submission with no typing while the request is in flight. */
  function Submit(s: State, o: Outcome): State {
    FinishSubmit(BeginSubmit(s), o)
  }

  /** The "Back to Home" button of the success overlay. */
  function Dismiss(s: State): (r: State)
    ensures !r.success
    ensures r.form == s.form && r.error == s.error && r.loading == s.loading
  {
    s.(success := false)
  }

  /** After a submission an error is shown exactly when the server did not accept it. */
  lemma SubmitErrorIffRejected(s: State, o: Outcome)
    ensures Submit(s, o).error != "" <==> !Accepted(o)
    ensures !Submit(s, o).loading
  {
  }

  /** Accepting, then dismissing the overlay, returns the form to its first-render state. */
  lemma AcceptThenDismissIsInitial(s: State, message: Option<string>)
    ensures Dismiss(Submit(s, Replied(Reply(true, message)))) == Initial
  {
    var r := Dismiss(Submit(s, Replied(Reply(true, message))));
    FieldsEqual(r.form, Blank);
  }

  /** A field edit, as the `change` event delivers it. */
  datatype Edit = Edit(name: Field, value: string)

  function ApplyEdits(s: State, edits: seq<Edit>): State
    decreases |edits|
  {
    if edits == [] then s
    else ApplyEdits(Change(s, edits[0].name, edits[0].value), edits[1..])
  }

  /** Typing never touches the loading and success flags. */
  lemma {:induction false} EditsKeepFlags(s: State, edits: seq<Edit>)
    ensures ApplyEdits(s, edits).loading == s.loading
    ensures ApplyEdits(s, edits).success == s.success
    decreases |edits|
  {
    if edits != [] {
      EditsKeepFlags(Change(s, edits[0].name, edits[0].value), edits[1..]);
    }
  }

  /**
   Typing while a request is in flight: the form stays in the loading state,
   an accepted submission still clears every field (edits made meanwhile are
   lost), and a refused one keeps them.
   */
  lemma EditsDuringRequest(s: State, edits: seq<Edit>, o: Outcome)
    ensures ApplyEdits(BeginSubmit(s), edits).loading
    ensures Accepted(o) ==> FinishSubmit(ApplyEdits(BeginSubmit(s), edits), o).form == Blank
    ensures !Accepted(o) ==>
      FinishSubmit(ApplyEdits(BeginSubmit(s), edits), o).form == ApplyEdits(BeginSubmit(s), edits).form
    ensures !FinishSubmit(ApplyEdits(BeginSubmit(s), edits), o).loading
  {
    var t := ApplyEdits(BeginSubmit(s), edits);
    EditsKeepFlags(BeginSubmit(s), edits);
    if Accepted(o) {
      FieldsEqual(FinishSubmit(t, o).form, Blank);
    }
  }
}
