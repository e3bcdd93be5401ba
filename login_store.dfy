/** The Vuex store of frontend/src/store/index.js: one flag, `isLoggedIn`, changed only by the
    three mutations, which the two actions commit. `localStorage` is a string map. */
module LoginStore {

  /** The mutations, as `commit` names them. */
  datatype Mutation = SetLogin(status: bool) | Login | Logout

  /** The flag after a mutation. */
  function Apply(m: Mutation, isLoggedIn: bool): bool {
    match m
    case SetLogin(status) => status
    case Login => true
    case Logout => false
  }

  /** Every mutation is idempotent, and `login`/`logout` are `setLogin(true)`/`setLogin(false)`. */
  lemma MutationsIdempotent(m: Mutation, isLoggedIn: bool)
    ensures Apply(m, Apply(m, isLoggedIn)) == Apply(m, isLoggedIn)
    ensures Apply(Login, isLoggedIn) == Apply(SetLogin(true), isLoggedIn)
    ensures Apply(Logout, isLoggedIn) == Apply(SetLogin(false), isLoggedIn)
  {
  }

  class LocalStorage {
    var items: map<string, string>

    constructor(initial: map<string, string>)
      ensures items == initial
    {
      items := initial;
    }

    /** `localStorage.removeItem(key)`. */
    method RemoveItem(key: string)
      modifies this
      ensures items == old(items) - {key}
    {
      items := items - {key};
    }
  }

  class Store {
    var isLoggedIn: bool

    /** `state()`: nobody is logged in yet. */
    constructor()
      ensures !isLoggedIn
    {
      isLoggedIn := false;
    }

    /** `commit(m)`. */
    method Commit(m: Mutation)
      modifies this
      ensures isLoggedIn == Apply(m, old(isLoggedIn))
    {
      match m
      case SetLogin(status) => isLoggedIn := status;
      case Login => isLoggedIn := true;
      case Logout => isLoggedIn := false;
    }

    /** The `login` action. */
    method LoginAction()
      modifies this
      ensures isLoggedIn
    {
      Commit(SetLogin(true));
    }

    /** The `logout` action: the stored token goes, every other stored item stays. */
    method LogoutAction(storage: LocalStorage)
      modifies this, storage
      ensures !isLoggedIn
      ensures storage.items == old(storage.items) - {"jwt"}
      ensures "jwt" !in storage.items
      ensures forall k :: k in old(storage.items) && k != "jwt" ==> k in storage.items && storage.items[k] == old(storage.items)[k]
    {
      storage.RemoveItem("jwt");
      Commit(SetLogin(false));
    }
  }
}
