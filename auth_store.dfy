/** The web client's authentication store: its state, the actions that
    overwrite fields of it, and the slice of it kept in local storage. */
module AuthStore {
  import opened Wrappers
  import opened Domain

  /** The account as the client holds it. */
  datatype ClientAccount = ClientAccount(id: Id, email: string, role: Role)

  datatype AuthState = AuthState(
    token: Option<string>,
    account: Option<ClientAccount>,
    isAuthenticated: bool,
    isInitialized: bool)

  /** What `partialize` hands to the persistence layer. */
  datatype Persisted = Persisted(token: Option<string>, account: Option<ClientAccount>, isAuthenticated: bool)

  datatype AuthAction =
    | SetAccount(account: Option<ClientAccount>)
    | SetToken(token: Option<string>)
    | Login(loggedIn: ClientAccount, credential: string)
    | Logout
    | Initialize

  function Initial(): (s: AuthState)
    ensures s.token.None? && s.account.None? && !s.isAuthenticated && !s.isInitialized
  {
    AuthState(None, None, false, false)
  }

  /** The state after one action: each action overwrites only the fields it
      names. */
  function Apply(s: AuthState, a: AuthAction): (t: AuthState)
    ensures t.isInitialized == (s.isInitialized || a.Initialize?)
    ensures t.isAuthenticated == if a.Logout? then false else if a.SetAccount? || a.Login? then true else s.isAuthenticated
    ensures t.token == match a
      case SetToken(token) => token
      case Login(_, token) => Some(token)
      case Logout => None
      case _ => s.token
    ensures t.account == match a
      case SetAccount(account) => account
      case Login(account, _) => Some(account)
      case Logout => None
      case _ => s.account
  {
    match a
    case SetAccount(account) => s.(account := account, isAuthenticated := true)
    case SetToken(token) => s.(token := token)
    case Login(account, token) => s.(account := Some(account), token := Some(token), isAuthenticated := true)
    case Logout => s.(account := None, token := None, isAuthenticated := false)
    case Initialize => s.(isInitialized := true)
  }

  /** `partialize`: token and account, never authenticated, never the
      initialisation flag. */
  function Partialize(s: AuthState): (p: Persisted)
    ensures p.token == s.token && p.account == s.account && !p.isAuthenticated
  {
    Persisted(s.token, s.account, false)
  }

  /** The persistence layer's default rehydration: the persisted fields are
      merged over the current state. */
  function Rehydrate(current: AuthState, p: Persisted): (s: AuthState)
    ensures s.token == p.token && s.account == p.account && s.isAuthenticated == p.isAuthenticated
    ensures s.isInitialized == current.isInitialized
  {
    current.(token := p.token, account := p.account, isAuthenticated := p.isAuthenticated)
  }

  lemma InitializeIsIdempotent(s: AuthState)
    ensures Apply(Apply(s, Initialize), Initialize) == Apply(s, Initialize)
  {
  }

  /** Logging in and out returns to the initial state, keeping only whether
      the store was initialised; nothing of the session is persisted. */
  lemma LoginThenLogout(s: AuthState, account: ClientAccount, token: string)
    ensures Apply(Apply(s, Login(account, token)), Logout) == Initial().(isInitialized := s.isInitialized)
    ensures Partialize(Apply(Apply(s, Login(account, token)), Logout)) == Persisted(None, None, false)
  {
  }

  /** After a reload the stored session is back, but the client does not count
      as authenticated until an account is set again. */
  lemma ReloadIsUnauthenticated(s: AuthState)
    ensures var r := Rehydrate(Initial(), Partialize(s));
      r.token == s.token && r.account == s.account && !r.isAuthenticated && !r.isInitialized
  {
  }

  /** `setAccount(null)` still marks the client authenticated. */
  lemma SetAccountNullAuthenticates(s: AuthState)
    ensures Apply(s, SetAccount(None)).isAuthenticated && Apply(s, SetAccount(None)).account.None?
  {
  }

  /** The store itself; each action is a method that overwrites its fields. */
  class Store {
    var token: Option<string>
    var account: Option<ClientAccount>
    var isAuthenticated: bool
    var isInitialized: bool

    function State(): AuthState
      reads this
    {
      AuthState(token, account, isAuthenticated, isInitialized)
    }

    constructor()
      ensures State() == Initial()
    {
      account, token, isAuthenticated, isInitialized := None, None, false, false;
    }

    method SetAccount(account: Option<ClientAccount>)
      modifies this
      ensures State() == Apply(old(State()), AuthAction.SetAccount(account))
    {
      this.account, isAuthenticated := account, true;
    }

    method SetToken(token: Option<string>)
      modifies this
      ensures State() == Apply(old(State()), AuthAction.SetToken(token))
    {
      this.token := token;
    }

    method Login(account: ClientAccount, token: string)
      modifies this
      ensures State() == Apply(old(State()), AuthAction.Login(account, token))
    {
      this.account, this.token, isAuthenticated := Some(account), Some(token), true;
    }

    method Logout()
      modifies this
      ensures State() == Apply(old(State()), AuthAction.Logout)
    {
      account, token, isAuthenticated := None, None, false;
    }

    method Initialize()
      modifies this
      ensures State() == Apply(old(State()), AuthAction.Initialize)
    {
      isInitialized := true;
    }
  }
}
