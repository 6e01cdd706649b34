/** LoginPanel.xaml.cs: the login and registration window. Passwords are stored as a
    salted hash together with the Base64 text of the salt; the hash function, the salt
    generator and Base64 live outside this model and are taken as parameters. */
module LoginScreen {
  import opened Wrappers
  import opened PokeApi
  import opened Store
  import opened Controller

  const UserNameAlreadyExistsMessage := "Username already exists!"
  const LoginErrorMessage := "Invalid username or password!"
  const PasswordsDoNotMatchMessage := "Passwords do not match!"
  const FillInAllFieldsMessage := "Please fill in all fields!"
  const LoginButtonText := "Back to Login"
  const RegisterButtonText := "Register"

  datatype Panel = LoginStackPanel | RegisterStackPanel

  /** The message of the first registration check that fails, in the handler's order:
      a field left empty, then a confirmation that differs, then a taken username. */
  function RegistrationError(users: seq<User>, userName: string, password: string, confirmPassword: string)
    : (r: Option<string>)
    ensures r.None? <==>
      userName != [] && password != [] && password == confirmPassword && FindUser(users, userName).None?
    ensures (userName == [] || password == [] || confirmPassword == []) ==> r == Some(FillInAllFieldsMessage)
  {
    if userName == [] || password == [] || confirmPassword == [] then Some(FillInAllFieldsMessage)
    else if password != confirmPassword then Some(PasswordsDoNotMatchMessage)
    else if FindUser(users, userName).Some? then Some(UserNameAlreadyExistsMessage)
    else None
  }

  /** Each message is reported exactly when its check is the first to fail. */
  lemma RegistrationChecksInOrder(users: seq<User>, userName: string, password: string, confirmPassword: string)
    ensures var r := RegistrationError(users, userName, password, confirmPassword);
      var filled := userName != [] && password != [] && confirmPassword != [];
      && (r == Some(FillInAllFieldsMessage) <==> !filled)
      && (r == Some(PasswordsDoNotMatchMessage) <==> filled && password != confirmPassword)
      && (r == Some(UserNameAlreadyExistsMessage) <==>
            filled && password == confirmPassword && exists u :: u in users && u.username == userName)
  {
    var r := RegistrationError(users, userName, password, confirmPassword);
    if exists u :: u in users && u.username == userName {
      var u :| u in users && u.username == userName;
      var k :| 0 <= k < |users| && users[k] == u;
      assert FindUser(users, userName).Some?;
    }
  }

  /** The user the login handler accepts: the first user of that name, when the hash
      of the entered password under the user's stored salt is the stored hash. */
  function Authenticate(users: seq<User>, userName: string, password: string,
                        hash: (string, seq<bv8>) -> string, fromBase64: string -> seq<bv8>): (r: Option<User>)
    ensures r.Some? ==>
      r.value in users && r.value.username == userName
      && hash(password, fromBase64(r.value.salt)) == r.value.password
    ensures r.None? <==>
      FindUser(users, userName).None?
      || hash(password, fromBase64(FindUser(users, userName).value.salt)) != FindUser(users, userName).value.password
  {
    match FindUser(users, userName)
    case None => None
    case Some(user) => if hash(password, fromBase64(user.salt)) == user.password then Some(user) else None
  }

  /** A user who has just registered can log in with the same password, provided the
      salt survives the Base64 round trip. */
  lemma RegisterThenLogin(users: seq<User>, userName: string, password: string, salt: seq<bv8>,
                          hash: (string, seq<bv8>) -> string, toBase64: seq<bv8> -> string,
                          fromBase64: string -> seq<bv8>)
    requires UniqueUsernames(users)
    requires RegistrationError(users, userName, password, password).None?
    requires fromBase64(toBase64(salt)) == salt
    ensures var user := User(|users| + 1, userName, hash(password, salt), toBase64(salt));
      Authenticate(users + [user], userName, password, hash, fromBase64) == Some(user)
  {
    var user := User(|users| + 1, userName, hash(password, salt), toBase64(salt));
    var all := users + [user];
    assert UniqueUsernames(all) by {
      forall j, k | 0 <= j < k < |all| ensures all[j].username != all[k].username {
        if k == |users| {
          assert all[j] == users[j];
        } else {
          assert all[j] == users[j] && all[k] == users[k];
        }
      }
    }
    assert all[|users|] == user;
    FindUserUnique(all, user);
  }

  class LoginPanel {
    const context: PokeContext
    const controller: PokeAPIController
    /** Common.HashPassword, Convert.ToBase64String and Convert.FromBase64String. */
    const hash: (string, seq<bv8>) -> string
    const toBase64: seq<bv8> -> string
    const fromBase64: string -> seq<bv8>
    var currentPanel: Panel
    var loginVisible: bool
    var registerVisible: bool
    var toggleText: string
    var loginErrorVisible: bool
    var loginErrorText: string
    var registerErrorVisible: bool
    var registerErrorText: string
    /** Set when the window hands over to the main window. */
    var mainPanelShown: bool

    /** Exactly one of the two panels is visible, and it is the current one. */
    ghost predicate PanelsAgree()
      reads this
    {
      && loginVisible != registerVisible
      && (currentPanel == LoginStackPanel <==> loginVisible)
      && toggleText == (if loginVisible then RegisterButtonText else LoginButtonText)
    }

    /** The window starts on the login panel. */
    constructor (context: PokeContext, controller: PokeAPIController, hash: (string, seq<bv8>) -> string,
                 toBase64: seq<bv8> -> string, fromBase64: string -> seq<bv8>)
      ensures this.context == context && this.controller == controller
      ensures this.hash == hash && this.toBase64 == toBase64 && this.fromBase64 == fromBase64
      ensures currentPanel == LoginStackPanel && PanelsAgree() && !mainPanelShown
    {
      this.context := context;
      this.controller := controller;
      this.hash := hash;
      this.toBase64 := toBase64;
      this.fromBase64 := fromBase64;
      currentPanel := LoginStackPanel;
      loginVisible := true;
      registerVisible := false;
      toggleText := RegisterButtonText;
      loginErrorVisible, loginErrorText := false, "";
      registerErrorVisible, registerErrorText := false, "";
      mainPanelShown := false;
    }

    /** TogglePanel_Click: swaps which panel is visible (from any state, the login panel
        being visible decides) and makes it the current one. */
    method TogglePanelClick()
      modifies this`currentPanel, this`loginVisible, this`registerVisible, this`toggleText
      ensures PanelsAgree()
      ensures loginVisible == !old(loginVisible)
    {
      if loginVisible {
        loginVisible := false;
        registerVisible := true;
        currentPanel := RegisterStackPanel;
        toggleText := LoginButtonText;
      } else {
        loginVisible := true;
        registerVisible := false;
        currentPanel := LoginStackPanel;
        toggleText := RegisterButtonText;
      }
    }

    /** LoginButton_Click: an unknown username and a wrong password produce the same
        message; only an accepted password sets the logged-in user and opens the main
        window. */
    method LoginButtonClick(userName: string, password: string)
      requires context.Valid() && controller.Valid()
      modifies this`loginErrorVisible, this`loginErrorText, this`mainPanelShown, context`loggedInUser,
               controller`pokemonNames, controller`requests
      ensures context.Valid() && controller.Valid()
      ensures var accepted := Authenticate(context.users, userName, password, hash, fromBase64);
        && (accepted.None? ==>
              && loginErrorVisible && loginErrorText == LoginErrorMessage
              && context.loggedInUser == old(context.loggedInUser)
              && mainPanelShown == old(mainPanelShown) && unchanged(controller))
        && (accepted.Some? ==>
              && !loginErrorVisible && loginErrorText == old(loginErrorText)
              && context.loggedInUser == accepted
              && mainPanelShown && controller.pokemonNames == controller.remote.names
              && controller.requests == old(controller.requests) + [NamedPage(10000, 0)])
    {
      loginErrorVisible := false;
      var user := FindUser(context.users, userName);
      if user.None? {
        ShowLoginError();
        return;
      }
      var storedSaltBytes := fromBase64(user.value.salt);
      var enteredPasswordHash := hash(password, storedSaltBytes);
      if enteredPasswordHash != user.value.password {
        ShowLoginError();
        return;
      }
      LogIn(user.value);
    }

    /** Shows the one login failure message. */
    method ShowLoginError()
      modifies this`loginErrorVisible, this`loginErrorText
      ensures loginErrorVisible && loginErrorText == LoginErrorMessage
    {
      loginErrorText := LoginErrorMessage;
      loginErrorVisible := true;
    }

    /** Makes a stored user the logged-in user and opens the main window. */
    method LogIn(user: User)
      requires context.Valid() && controller.Valid() && user in context.users
      modifies this`mainPanelShown, context`loggedInUser, controller`pokemonNames, controller`requests
      ensures context.Valid() && controller.Valid()
      ensures context.loggedInUser == Some(user)
      ensures mainPanelShown && controller.pokemonNames == controller.remote.names
      ensures controller.requests == old(controller.requests) + [NamedPage(10000, 0)]
    {
      context.loggedInUser := Some(user);
      ShowMainPanel();
    }

    /** RegisterButton_Click with `saltBytes` the salt Common.GenerateSalt returns: the
        first failing check is reported and nothing is stored; otherwise a user with the
        salted hash and the Base64 salt is added, logged in, and the main window opens. */
    method RegisterButtonClick(userName: string, password: string, confirmPassword: string, saltBytes: seq<bv8>)
      requires context.Valid() && controller.Valid()
      modifies this`registerErrorVisible, this`registerErrorText, this`mainPanelShown,
               context`users, context`loggedInUser, controller`pokemonNames, controller`requests
      ensures context.Valid() && controller.Valid()
      ensures var error := RegistrationError(old(context.users), userName, password, confirmPassword);
        && (error.Some? ==>
              && registerErrorVisible && registerErrorText == error.value
              && context.users == old(context.users) && context.loggedInUser == old(context.loggedInUser)
              && mainPanelShown == old(mainPanelShown) && unchanged(controller))
        && (error.None? ==>
              var user := User(|old(context.users)| + 1, userName, hash(password, saltBytes), toBase64(saltBytes));
              && !registerErrorVisible && registerErrorText == old(registerErrorText)
              && context.users == old(context.users) + [user]
              && context.loggedInUser == Some(user)
              && mainPanelShown && controller.pokemonNames == controller.remote.names
              && controller.requests == old(controller.requests) + [NamedPage(10000, 0)])
    {
      registerErrorVisible := false;
      if userName == [] || password == [] || confirmPassword == [] {
        ShowRegisterError(FillInAllFieldsMessage);
        return;
      }
      if password != confirmPassword {
        ShowRegisterError(PasswordsDoNotMatchMessage);
        return;
      }
      var hashedPassword := hash(password, saltBytes);
      var base64Salt := toBase64(saltBytes);
      var existingUser := FindUser(context.users, userName);
      if existingUser.Some? {
        ShowRegisterError(UserNameAlreadyExistsMessage);
        return;
      }
      Enrol(userName, hashedPassword, base64Salt);
    }

    /** Shows `message` in the registration panel's error block. */
    method ShowRegisterError(message: string)
      modifies this`registerErrorVisible, this`registerErrorText
      ensures registerErrorVisible && registerErrorText == message
    {
      registerErrorText := message;
      registerErrorVisible := true;
    }

    /** Stores the new user, logs them in and opens the main window. */
    method Enrol(userName: string, hashedPassword: string, base64Salt: string)
      requires context.Valid() && controller.Valid() && FindUser(context.users, userName).None?
      modifies this`mainPanelShown, context`users, context`loggedInUser,
               controller`pokemonNames, controller`requests
      ensures context.Valid() && controller.Valid()
      ensures var user := User(|old(context.users)| + 1, userName, hashedPassword, base64Salt);
        && context.users == old(context.users) + [user]
        && context.loggedInUser == Some(user)
        && mainPanelShown && controller.pokemonNames == controller.remote.names
        && controller.requests == old(controller.requests) + [NamedPage(10000, 0)]
    {
      var user := context.AddUser(userName, hashedPassword, base64Salt);
      context.loggedInUser := Some(user);
      ShowMainPanel();
    }

    /** ShowMainPanel: loads the controller's name index and opens the main window. */
    method ShowMainPanel()
      requires controller.Valid()
      modifies this`mainPanelShown, controller`pokemonNames, controller`requests
      ensures controller.Valid() && mainPanelShown
      ensures controller.pokemonNames == controller.remote.names
      ensures controller.requests == old(controller.requests) + [NamedPage(10000, 0)]
    {
      controller.Initialize();
      mainPanelShown := true;
    }
  }
}
