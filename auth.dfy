/**
  The authentication handshake of the lens: a pending flag and the frob of the
  handshake in progress. While a request is pending every search only shows the
  placeholder row; completing the handshake exchanges the frob for a token.
*/
module Auth {
  import opened Wrappers
  import opened RtmApi
  import opened Host

  /** The URI of the placeholder row; activating it completes the handshake. */
  const PlaceholderUri := "rtmLens://auth/wait"

  /** `self.frob`: unset until the first handshake starts, then the frob the service gave (possibly None). */
  datatype Handshake = NoFrob | Frob(frob: Option<string>)

  /** The row asking the user to authorise the lens in the browser. */
  function Placeholder(icon: string, taskModelItem: string): (row: Row)
    ensures row.uri == PlaceholderUri && row.icon == icon && row.category == taskModelItem
    ensures row.mime == "text/plain" && row.dndUri == ""
  {
    Row(PlaceholderUri, icon, taskModelItem, "text/plain",
        "Authorization required", "Check your web browser. Click this icon when finished.", "")
  }

  /**
    `retrieve_token` followed by reading the client's token: the token the
    exchange of `frob` leaves, with the client holding it; an exception
    leaves the client's token as it was.
  */
  method RetrieveAndRead(rtm: Rtm, frob: Option<string>, server: Server) returns (r: Result<Option<string>, Error>)
    modifies rtm`token
    ensures r == rtm.ExchangedToken(frob, server)
    ensures r.Success? ==> rtm.token == r.value
    ensures r.Failure? ==> rtm.token == old(rtm.token)
  {
    var retrieved := rtm.RetrieveToken(frob, server);
    if retrieved.Failure? {
      return Failure(retrieved.error);
    }
    r := Success(rtm.token);
  }

  /** `AuthManager`. */
  class AuthManager {
    var pending: bool
    var handshake: Handshake
    const icon: string
    const taskModelItem: string

    /** A new manager has no request pending. */
    constructor (icon: string, taskModelItem: string)
      ensures !pending && handshake == NoFrob
      ensures this.icon == icon && this.taskModelItem == taskModelItem
    {
      pending := false;
      handshake := NoFrob;
      this.icon := icon;
      this.taskModelItem := taskModelItem;
    }

    /**
      `_isAuthNeeded`: the token is always checked with the service; no
      authentication is needed only when it is valid and nothing is pending.
    */
    function IsAuthNeeded(rtm: Rtm, server: Server): (r: Result<bool, Error>)
      reads this, rtm
      ensures r.Failure? <==> rtm.TokenValid(server).Failure?
      ensures r.Failure? ==> r.error == rtm.TokenValid(server).error
      ensures r == Success(false) <==> rtm.TokenValid(server) == Success(true) && !pending
    {
      match rtm.TokenValid(server)
      case Failure(e) => Failure(e)
      case Success(valid) => Success(!(valid && !pending))
    }

    /**
      `_rtmRequireAuthentication`: always shows the placeholder; when no request
      is pending it also starts a desktop handshake, opens its URL and marks the
      request pending. A failed handshake leaves the request not pending.
    */
    method RtmRequireAuthentication(rtm: Rtm, model: ResultsModel, browser: Browser, server: Server)
      returns (r: Result<(), Error>)
      modifies this, model, browser
      ensures model.rows == old(model.rows) + [Placeholder(icon, taskModelItem)]
      ensures old(pending) ==>
                r.Success? && pending && handshake == old(handshake) && browser.visited == old(browser.visited)
      ensures !old(pending) ==> Started(browser, rtm.AuthenticateDesktop(server), old(handshake), old(browser.visited), r)
    {
      model.Append(Placeholder(icon, taskModelItem));
      if pending {
        return Success(());
      }
      r := StartHandshake(rtm.AuthenticateDesktop(server), browser);
    }

    /**
      The state after a desktop handshake was attempted: on failure the error,
      nothing pending and nothing opened; on success the frob is kept, the
      authorisation URL opened and the request pending.
    */
    ghost predicate Started(browser: Browser, started: Result<(string, Option<string>), Error>, handshake0: Handshake,
                            visited0: seq<string>, r: Result<(), Error>)
      reads this, browser
    {
      && (started.Failure? ==>
            r == Failure(started.error) && !pending && handshake == handshake0 && browser.visited == visited0)
      && (started.Success? ==>
            r.Success? && pending && handshake == Frob(started.value.1) && browser.visited == visited0 + [started.value.0])
    }

    /**
      The part of `_rtmRequireAuthentication` that runs when no request is
      pending, given what `authenticate_desktop` returned.
    */
    method StartHandshake(started: Result<(string, Option<string>), Error>, browser: Browser) returns (r: Result<(), Error>)
      requires !pending
      modifies this, browser
      ensures Started(browser, started, old(handshake), old(browser.visited), r)
    {
      if started.Failure? {
        return Failure(started.error);
      }
      handshake := Frob(started.value.1);
      browser.Open(started.value.0);
      pending := true;
      r := Success(());
    }

    /**
      `checkAndRequireAuthentication`: false, with nothing shown, when no
      authentication is needed; otherwise the require step runs and the answer
      is true.
    */
    method CheckAndRequireAuthentication(rtm: Rtm, model: ResultsModel, browser: Browser, server: Server)
      returns (r: Result<bool, Error>)
      modifies this, model, browser
      ensures old(IsAuthNeeded(rtm, server)).Failure? ==>
                r == Failure(old(IsAuthNeeded(rtm, server)).error)
                && unchanged(this) && unchanged(model) && unchanged(browser)
      ensures old(IsAuthNeeded(rtm, server)) == Success(false) ==>
                r == Success(false) && unchanged(this) && unchanged(model) && unchanged(browser)
      ensures old(IsAuthNeeded(rtm, server)) == Success(true) ==>
                && model.rows == old(model.rows) + [Placeholder(icon, taskModelItem)]
                && (old(pending) ==> r == Success(true) && pending && handshake == old(handshake)
                                     && browser.visited == old(browser.visited))
                && (!old(pending) && rtm.AuthenticateDesktop(server).Success? ==>
                      r == Success(true) && pending && handshake == Frob(rtm.AuthenticateDesktop(server).value.1)
                      && browser.visited == old(browser.visited) + [rtm.AuthenticateDesktop(server).value.0])
                && (!old(pending) && rtm.AuthenticateDesktop(server).Failure? ==>
                      && r == Failure(rtm.AuthenticateDesktop(server).error) && !pending
                      && handshake == old(handshake) && browser.visited == old(browser.visited))
    {
      var needed := IsAuthNeeded(rtm, server);
      match needed
      case Failure(e) =>
        return Failure(e);
      case Success(n) =>
        if !n {
          return Success(false);
        }
        var done := RtmRequireAuthentication(rtm, model, browser, server);
        if done.Failure? {
          return Failure(done.error);
        }
        r := Success(true);
    }

    /**
      `rtmCompleteAuthentication`: exchanges the stored frob for a token,
      clears the pending flag, saves the token when there is one and returns
      it. Before any handshake there is no frob (AttributeError); an exception
      from the exchange leaves the flag set.
    */
    method RtmCompleteAuthentication(rtm: Rtm, tokenFile: TokenFile, server: Server)
      returns (r: Result<Option<string>, Error>)
      modifies this`pending, rtm`token, tokenFile
      ensures old(handshake).NoFrob? ==> r == Failure(AttributeError)
      ensures old(handshake).Frob? ==> r == rtm.ExchangedToken(old(handshake).frob, server)
      ensures r.Failure? ==>
                pending == old(pending) && rtm.token == old(rtm.token) && tokenFile.stored == old(tokenFile.stored)
      ensures r.Success? ==>
                && r.value == rtm.token
                && !pending
                && tokenFile.stored == if rtm.token.Some? then rtm.token else old(tokenFile.stored)
    {
      match handshake
      case NoFrob =>
        return Failure(AttributeError);
      case Frob(frob) =>
        var retrieved := RetrieveAndRead(rtm, frob, server);
        if retrieved.Failure? {
          return Failure(retrieved.error);
        }
        var token := retrieved.value;
        pending := false;
        if token.Some? {
          tokenFile.Save(token.value);
        }
        r := Success(token);
    }
  }
}
