/** The authentication store (app/store/slices/authSlices.ts): the API key
    of the signed-in project, a loading flag and an error message, the two
    request operations (register, sign in) and logout. HTTP is outside the
    model: an operation's thunk is a function of the response it got. */
module AuthSlice {
  import opened Nullable
  import DocsSlice

  datatype AuthState = AuthState(apiKey: Option<string>, loading: bool, error: Option<string>)

  /** `initialState`: signed out, idle, no error. */
  const InitialState := AuthState(None, false, None)

  const RegisterThunkFallback := "Failed to register. Please try again."
  const SigninThunkFallback := "Invalid API key. Please try again."
  const RegisterReducerFallback := "Registration failed."
  const SigninReducerFallback := "Sign in failed."

  /** registerUser: the `apiKey` of the response, or a rejection carrying
      the server's message or the operation's fallback. */
  function RegisterUserThunk(response: DocsSlice.Response<string>): DocsSlice.Settled<string>
  {
    match response
    case Ok(apiKey) => DocsSlice.Fulfilled(apiKey)
    case Failed(m) => DocsSlice.Rejected(OrElse(m, RegisterThunkFallback))
  }

  /** signinUser: as registerUser, with its own fallback. */
  function SigninUserThunk(response: DocsSlice.Response<string>): DocsSlice.Settled<string>
  {
    match response
    case Ok(apiKey) => DocsSlice.Fulfilled(apiKey)
    case Failed(m) => DocsSlice.Rejected(OrElse(m, SigninThunkFallback))
  }

  /** The actions the slice handles. A rejected action's payload is the
      thunk's rejection value, missing when the thunk failed before it
      could reject with one. */
  datatype Action =
    | Logout
    | RegisterPending | RegisterFulfilled(apiKey: string) | RegisterRejected(payload: Option<string>)
    | SigninPending | SigninFulfilled(apiKey: string) | SigninRejected(payload: Option<string>)

  /** The slice's reducer. A fulfilled case leaves `error` as it was. */
  function Reduce(s: AuthState, a: Action): AuthState
  {
    match a
    case Logout => s.(apiKey := None, error := None, loading := false)
    case RegisterPending => s.(loading := true, error := None)
    case RegisterFulfilled(k) => s.(loading := false, apiKey := Some(k))
    case RegisterRejected(p) => s.(loading := false, error := Some(OrElse(p, RegisterReducerFallback)))
    case SigninPending => s.(loading := true, error := None)
    case SigninFulfilled(k) => s.(loading := false, apiKey := Some(k))
    case SigninRejected(p) => s.(loading := false, error := Some(OrElse(p, SigninReducerFallback)))
  }

  /** The action a settled thunk dispatches. */
  function RegisterSettledAction(r: DocsSlice.Settled<string>): Action
  {
    match r
    case Fulfilled(k) => RegisterFulfilled(k)
    case Rejected(m) => RegisterRejected(Some(m))
  }

  function SigninSettledAction(r: DocsSlice.Settled<string>): Action
  {
    match r
    case Fulfilled(k) => SigninFulfilled(k)
    case Rejected(m) => SigninRejected(Some(m))
  }

  /** Logout returns any state to the initial one. */
  lemma LogoutRestoresInitial(s: AuthState)
    ensures Reduce(s, Logout) == InitialState
  {
  }

  /** A pending request raises the flag and clears the previous error; a
      settled one lowers the flag; only a fulfilled one changes the key,
      and only logout removes it. */
  lemma ReducerFlags(s: AuthState, a: Action)
    ensures (a == RegisterPending || a == SigninPending) ==> Reduce(s, a).loading && Reduce(s, a).error == None
    ensures !(a == RegisterPending || a == SigninPending) ==> !Reduce(s, a).loading
    ensures Reduce(s, a).apiKey ==
      (if a.RegisterFulfilled? || a.SigninFulfilled? then Some(a.apiKey)
       else if a == Logout then None
       else s.apiKey)
  {
  }

  /** A rejected request always leaves a non-empty error message, whatever
      its payload. */
  lemma RejectionLeavesMessage(s: AuthState, p: Option<string>)
    ensures Reduce(s, RegisterRejected(p)).error.Some? && Reduce(s, RegisterRejected(p)).error.value != ""
    ensures Reduce(s, SigninRejected(p)).error.Some? && Reduce(s, SigninRejected(p)).error.value != ""
  {
  }

  /** A request that went through its thunk ends in a state decided by the
      response alone: the key and no error on success; on failure the
      server's message or the thunk's fallback, so on this path the
      reducer's own fallbacks ("Registration failed.", "Sign in failed.")
      are never used. */
  lemma RequestOutcome(s: AuthState, response: DocsSlice.Response<string>)
    ensures var t := Reduce(Reduce(s, RegisterPending), RegisterSettledAction(RegisterUserThunk(response)));
      && !t.loading
      && (response.Ok? ==> t == AuthState(Some(response.data), false, None))
      && (response.Failed? ==> t.apiKey == s.apiKey && t.error == Some(OrElse(response.serverMessage, RegisterThunkFallback)))
    ensures var t := Reduce(Reduce(s, SigninPending), SigninSettledAction(SigninUserThunk(response)));
      && !t.loading
      && (response.Ok? ==> t == AuthState(Some(response.data), false, None))
      && (response.Failed? ==> t.apiKey == s.apiKey && t.error == Some(OrElse(response.serverMessage, SigninThunkFallback)))
  {
  }

  /** The store, its fields updated in place by the reducer's cases. */
  class AuthStore {
    var apiKey: Option<string>
    var loading: bool
    var error: Option<string>

    function Snapshot(): AuthState
      reads this
    {
      AuthState(apiKey, loading, error)
    }

    constructor ()
      ensures Snapshot() == InitialState
    {
      apiKey, loading, error := None, false, None;
    }

    method Logout()
      modifies this
      ensures Snapshot() == Reduce(old(Snapshot()), Action.Logout)
    {
      apiKey := None;
      error := None;
      loading := false;
    }

    method RegisterPending()
      modifies this
      ensures Snapshot() == Reduce(old(Snapshot()), Action.RegisterPending)
    {
      loading := true;
      error := None;
    }

    method RegisterFulfilled(payload: string)
      modifies this
      ensures Snapshot() == Reduce(old(Snapshot()), Action.RegisterFulfilled(payload))
    {
      loading := false;
      apiKey := Some(payload);
    }

    method RegisterRejected(payload: Option<string>)
      modifies this
      ensures Snapshot() == Reduce(old(Snapshot()), Action.RegisterRejected(payload))
    {
      loading := false;
      error := Some(OrElse(payload, RegisterReducerFallback));
    }

    method SigninPending()
      modifies this
      ensures Snapshot() == Reduce(old(Snapshot()), Action.SigninPending)
    {
      loading := true;
      error := None;
    }

    method SigninFulfilled(payload: string)
      modifies this
      ensures Snapshot() == Reduce(old(Snapshot()), Action.SigninFulfilled(payload))
    {
      loading := false;
      apiKey := Some(payload);
    }

    method SigninRejected(payload: Option<string>)
      modifies this
      ensures Snapshot() == Reduce(old(Snapshot()), Action.SigninRejected(payload))
    {
      loading := false;
      error := Some(OrElse(payload, SigninReducerFallback));
    }
  }
}
