/**
 * The binding service (server/service.go): it orchestrates the code store
 * and the repository, and notifies the registered handlers of every new
 * binding.
 *
 * Handlers are opaque callbacks.  A handler is kept as an identity, and the
 * service keeps the record `notified` of every call it has made to one.
 */
module Service {
  import opened Errors
  import opened Codes
  import opened Repository

  /** A registered NewUserHandler. */
  datatype NewUserHandler = NewUserHandler(name: string)

  /** One call of a handler with a newly bound user. */
  datatype Notification = Notification(handler: NewUserHandler, user: User)

  /** The calls of the handlers, in order, each with the same user: one per handler. */
  function Notifications(handlers: seq<NewUserHandler>, user: User): (ns: seq<Notification>)
    ensures |ns| == |handlers|
    ensures forall i :: 0 <= i < |ns| ==> ns[i] == Notification(handlers[i], user)
  {
    seq(|handlers|, i requires 0 <= i < |handlers| => Notification(handlers[i], user))
  }

  function AlreadyBoundTo(discord: string): ApplicationError {
    NewApplicationError(40000, "Minecraft account is already bound to ID " + discord)
  }

  class Service {
    const repo: DefaultRepository
    const codeStr: DefaultCodeStore
    var handlers: seq<NewUserHandler>
    var notified: seq<Notification>

    /** NewService */
    constructor (repo: DefaultRepository, codeStr: DefaultCodeStore)
      ensures this.repo == repo && this.codeStr == codeStr
      ensures handlers == [] && notified == []
    {
      this.repo := repo;
      this.codeStr := codeStr;
      handlers := [];
      notified := [];
    }

    /** AddHandler appends one handler and keeps the earlier ones in order. */
    method AddHandler(handler: NewUserHandler)
      modifies this
      ensures handlers == old(handlers) + [handler]
      ensures notified == old(notified)
    {
      handlers := handlers + [handler];
    }

    /**
     * IssueCode refuses an XUID that is already bound, before it touches the
     * code store; otherwise it returns exactly what the store's Issue returns.
     * The lookup's own error is ignored, so an XUID whose lookup fails is
     * treated as unbound.
     */
    method IssueCode(xuid: string, lookup: Storage, draws: seq<RandomRead>, issuedAt: Time, expiryBase: Time)
      returns (r: Result<Option<CodeInformation>>)
      requires codeStr.Valid()
      requires repo.GetUserByXUID(xuid, lookup).Err? && !HasCodeFor(codeStr.codes, xuid) ==> FindsFree(codeStr.codes, draws)
      modifies codeStr
      ensures codeStr.Valid()
      ensures var existing := repo.GetUserByXUID(xuid, lookup);
              existing.Ok? ==> r == Err(App(AlreadyBoundTo(existing.value.discord))) && codeStr.codes == old(codeStr.codes)
      ensures repo.GetUserByXUID(xuid, lookup).Err? ==>
                Issued(old(codeStr.codes), codeStr.codes, xuid, draws, issuedAt, expiryBase, r)
    {
      var existing := repo.GetUserByXUID(xuid, lookup);
      if existing.Ok? {
        return Err(App(AlreadyBoundTo(existing.value.discord)));
      }
      r := codeStr.Issue(xuid, draws, issuedAt, expiryBase);
    }

    /** CheckCode reports the code's entry, or the store's 40400 error; it changes nothing. */
    function CheckCode(code: string): (r: Result<CodeInformation>)
      reads this, codeStr
      ensures r.Ok? <==> code in codeStr.codes
      ensures r.Ok? ==> r.value == codeStr.codes[code]
      ensures r.Err? ==> r.error == App(CodeDoesNotExist)
    {
      var info := codeStr.GetInformation(code);
      if info.Err? then Err(info.error) else Ok(info.value)
    }

    method RevokeCode(code: string) returns (r: Outcome)
      requires codeStr.Valid()
      modifies codeStr
      ensures codeStr.Valid()
      ensures Revoked(old(codeStr.codes), codeStr.codes, code, r)
    {
      r := codeStr.Revoke(code);
    }

    function GetUserByXUID(xuid: string, lookup: Storage): (r: Result<User>)
      reads this, repo
      ensures r == repo.GetUserByXUID(xuid, lookup)
    {
      repo.GetUserByXUID(xuid, lookup)
    }

    function GetUserByDiscord(discord: string, lookup: Storage): (r: Result<User>)
      reads this, repo
      ensures r == repo.GetUserByDiscord(discord, lookup)
    {
      repo.GetUserByDiscord(discord, lookup)
    }

    /**
     * CreateUser: the repository's CreateUser; only when it succeeds is every
     * registered handler called, once each, in registration order, with the
     * new user.
     */
    method CreateUser(discord: string, xuid: string, lookup: Storage, insert: Storage) returns (r: Result<User>)
      modifies this, repo
      ensures Created(old(repo.rows), repo.rows, discord, xuid, lookup, insert, r)
      ensures old(repo.Valid()) && lookup.Succeeds? ==> repo.Valid()
      ensures handlers == old(handlers)
      ensures r.Err? ==> notified == old(notified)
      ensures r.Ok? ==> notified == old(notified) + Notifications(handlers, r.value)
    {
      var user := repo.CreateUser(discord, xuid, lookup, insert);
      if user.Err? {
        return Err(user.error);
      }
      for i := 0 to |handlers|
        modifies this
        invariant handlers == old(handlers)
        invariant notified == old(notified) + Notifications(handlers[..i], user.value)
      {
        notified := notified + [Notification(handlers[i], user.value)];
        assert handlers[..i + 1] == handlers[..i] + [handlers[i]];
      }
      assert handlers[..|handlers|] == handlers;
      r := user;
    }

    method DeleteUserByDiscord(discord: string, lookup: Storage, removal: Storage) returns (r: Outcome)
      modifies repo
      ensures Deleted(old(repo.rows), repo.rows, DiscordColumn, discord, lookup, removal, r)
      ensures old(repo.Valid()) ==> repo.Valid()
    {
      r := repo.DeleteUserByDiscord(discord, lookup, removal);
    }

    method DeleteUserByXUID(xuid: string, lookup: Storage, removal: Storage) returns (r: Outcome)
      modifies repo
      ensures Deleted(old(repo.rows), repo.rows, XuidColumn, xuid, lookup, removal, r)
      ensures old(repo.Valid()) ==> repo.Valid()
    {
      r := repo.DeleteUserByXUID(xuid, lookup, removal);
    }
  }
}
