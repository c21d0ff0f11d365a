/** frontend/src/pages/Register.tsx: the sign-up form's submit handler. */
module RegisterPage {
  import opened Types

  datatype Form = Form(name: string, email: string, password: string, confirmPassword: string, role: string)

  /** The form as first rendered: empty fields, role "participant". */
  const Blank: Form := Form("", "", "", "", ParticipantRole)

  const MinPasswordLength: nat := 6
  const Mismatch: string := "Passwords do not match"
  const TooShort: string := "Password must be at least 6 characters long"

  /** The two local checks, in the source's order: the first failing one's message. */
  function Validate(f: Form): (problem: Option<string>)
    ensures problem.None? <==> f.password == f.confirmPassword && |f.password| >= MinPasswordLength
    ensures f.password != f.confirmPassword ==> problem == Some(Mismatch)
    ensures f.password == f.confirmPassword && |f.password| < MinPasswordLength ==> problem == Some(TooShort)
  {
    if f.password != f.confirmPassword then Some(Mismatch)
    else if |f.password| < MinPasswordLength then Some(TooShort)
    else None
  }

  /** The arguments `register` is called with. */
  datatype Call = Call(name: string, email: string, password: string, role: string)

  datatype Submitted = Submitted(call: Option<Call>, navigated: bool, notice: Notice, loading: bool)

  /** `handleSubmit`: an invalid form shows its message and calls nothing;
      a valid one calls `register` with the form's fields, and navigates to
      the events page only if that succeeds. `outcome` is `register`'s
      thrown message, or None when it resolved. */
  function HandleSubmit(f: Form, outcome: Option<string>): (s: Submitted)
    ensures !s.loading
    ensures s.call.Some? <==> Validate(f).None?
    ensures s.call.None? ==> s.notice == Notice(Error, Validate(f).value) && !s.navigated
    ensures s.call.Some? ==> s.call.value == Call(f.name, f.email, f.password, f.role)
    ensures s.navigated <==> s.call.Some? && outcome.None?
    ensures s.call.Some? && outcome.Some? ==> s.notice == Notice(Error, outcome.value)
  {
    match Validate(f)
    case Some(problem) => Submitted(None, false, Notice(Error, problem), false)
    case None =>
      var call := Call(f.name, f.email, f.password, f.role);
      if outcome.None? then Submitted(Some(call), true, Notice(Success, "Registration successful! Welcome to EventHub!"), false)
      else Submitted(Some(call), false, Notice(Error, outcome.value), false)
  }

  /** A password of exactly six characters is long enough. */
  lemma SixCharactersAccepted(f: Form)
    requires f.password == f.confirmPassword && |f.password| == 6
    ensures HandleSubmit(f, None).call.Some?
  {
  }

  /** When both checks fail, the mismatch is what the user sees. */
  lemma MismatchReportedFirst(f: Form, outcome: Option<string>)
    requires f.password != f.confirmPassword && |f.password| < MinPasswordLength
    ensures HandleSubmit(f, outcome) == Submitted(None, false, Notice(Error, Mismatch), false)
  {
  }

  /** An untouched form registers a participant, once its passwords are filled in and agree. */
  lemma DefaultRoleIsParticipant(name: string, email: string, password: string)
    requires |password| >= MinPasswordLength
    ensures HandleSubmit(Blank.(name := name, email := email, password := password, confirmPassword := password), None).call
         == Some(Call(name, email, password, ParticipantRole))
  {
  }
}
