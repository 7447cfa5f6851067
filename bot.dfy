/**
 * The decision logic of the "bind" and "unbind" slash commands
 * (server/bot.go).  Each handler makes its calls into the service and
 * returns the text the bot replies with; the Discord session around them is
 * not part of this model.  The invoking member's ID and the "code" option
 * are parameters, and so are the outcomes of the storage calls.
 */
module Bot {
  import opened Errors
  import opened Codes
  import opened Repository
  import opened Service

  const SomethingWentWrong: string := "Something went wrong"
  const BindingCreated: string := "Binding has been created successfully"
  const BindingRemoved: string := "Binding has been removed successfully"

  /** The reply for a failed call: an ApplicationError's message, a fixed text for any other error. */
  function ReplyFor(err: Error): (reply: string)
    ensures err.IsApplicationError() ==> reply == err.app.message
    ensures !err.IsApplicationError() ==> reply == SomethingWentWrong
  {
    if err.IsApplicationError() then err.Message() else SomethingWentWrong
  }

  class Bot {
    const service: Service

    /** NewBot, without the Discord session. */
    constructor (service: Service)
      ensures this.service == service
    {
      this.service := service;
    }

    /**
     * The "bind" handler: check the code, bind the member to the code's XUID,
     * then revoke the code (ignoring the revocation's outcome).  Nothing is
     * bound or revoked when the code is unknown, and the code stays when the
     * binding fails.
     */
    method Bind(memberId: string, code: string, lookup: Storage, insert: Storage) returns (reply: string)
      requires service.codeStr.Valid()
      modifies service, service.repo, service.codeStr
      ensures service.codeStr.Valid()
      ensures old(service.repo.Valid()) && lookup.Succeeds? ==> service.repo.Valid()
      ensures service.handlers == old(service.handlers)
      // an unknown code: the store's message, and nothing changes
      ensures code !in old(service.codeStr.codes) ==>
                && reply == CodeDoesNotExist.message
                && service.repo.rows == old(service.repo.rows)
                && service.codeStr.codes == old(service.codeStr.codes)
                && service.notified == old(service.notified)
      // a known code, but the binding is refused or cannot be stored: the code stays
      ensures code in old(service.codeStr.codes) ==>
                var xuid := old(service.codeStr.codes)[code].xuid;
                (lookup.Succeeds? && Conflicts(old(service.repo.rows), memberId, xuid)) || insert.Fails? ==>
                  && reply == (if lookup.Succeeds? && Conflicts(old(service.repo.rows), memberId, xuid)
                               then AlreadyBound.message else SomethingWentWrong)
                  && service.repo.rows == old(service.repo.rows)
                  && service.codeStr.codes == old(service.codeStr.codes)
                  && service.notified == old(service.notified)
      // a known code and a stored binding: the member is bound to the code's XUID and the code is gone
      ensures code in old(service.codeStr.codes) ==>
                var xuid := old(service.codeStr.codes)[code].xuid;
                !(lookup.Succeeds? && Conflicts(old(service.repo.rows), memberId, xuid)) && insert.Succeeds? ==>
                  && reply == BindingCreated
                  && service.repo.rows == old(service.repo.rows) + [UserData(memberId, xuid)]
                  && service.codeStr.codes == old(service.codeStr.codes) - {code}
                  && service.notified == old(service.notified) + Notifications(service.handlers, User(memberId, xuid))
    {
      var codeInfo := service.CheckCode(code);
      if codeInfo.Err? {
        return ReplyFor(codeInfo.error);
      }
      var discordId := memberId;
      CreateRefusesIff(service.repo.rows, discordId, codeInfo.value.xuid, lookup);
      var user := service.CreateUser(discordId, codeInfo.value.xuid, lookup, insert);
      if user.Err? {
        return ReplyFor(user.error);
      }
      var _ := service.RevokeCode(codeInfo.value.code);
      reply := BindingCreated;
    }

    /**
     * The "unbind" handler: delete the member's binding.  The reply is the
     * repository's 40400 message when the member has none, the fixed text
     * when the lookup fails, and the success text otherwise.
     */
    method Unbind(memberId: string, lookup: Storage, removal: Storage) returns (reply: string)
      modifies service.repo
      ensures old(service.repo.Valid()) ==> service.repo.Valid()
      ensures lookup.Fails? ==> reply == SomethingWentWrong && service.repo.rows == old(service.repo.rows)
      ensures lookup.Succeeds? && (forall i :: 0 <= i < |old(service.repo.rows)| ==> old(service.repo.rows)[i].discord != memberId) ==>
                reply == UserNotFound.message && service.repo.rows == old(service.repo.rows)
      ensures lookup.Succeeds? && (exists i :: 0 <= i < |old(service.repo.rows)| && old(service.repo.rows)[i].discord == memberId) ==>
                && reply == BindingRemoved
                && service.repo.rows == if removal.Succeeds? then Drop(old(service.repo.rows), DiscordColumn, memberId)
                                        else old(service.repo.rows)
    {
      var discordId := memberId;
      var err := service.DeleteUserByDiscord(discordId, lookup, removal);
      if err.Fail? {
        return ReplyFor(err.error);
      }
      reply := BindingRemoved;
    }
  }

  /**
   * On an empty store and an empty table, a code is issued for `xuid` from
   * one free draw, and `memberId` binds with it: the member is bound to the
   * XUID and the store is empty again.
   */
  method IssueThenBind(bot: Bot, memberId: string, xuid: string, draw: RandomRead)
    returns (issued: Result<Option<CodeInformation>>, code: string, bound: string)
    requires bot.service.codeStr.codes == map[] && bot.service.repo.rows == []
    requires FilledRead(draw) && |xuid| != CodeLength
    modifies bot.service, bot.service.repo, bot.service.codeStr
    ensures issued == Ok(None) && code == Render(draw.bytes) && bound == BindingCreated
    ensures bot.service.repo.rows == [UserData(memberId, xuid)]
    ensures bot.service.codeStr.codes == map[]
  {
    var service := bot.service;
    code := Render(draw.bytes);
    assert FirstFree(service.codeStr.codes, [draw], 0);
    issued := service.IssueCode(xuid, Succeeds, [draw], 0, 0);
    assert service.codeStr.codes == map[code := CodeInformation(code, xuid, 0, Lifetime)];
    assert !Conflicts(service.repo.rows, memberId, xuid);
    bound := bot.Bind(memberId, code, Succeeds, Succeeds);
  }

  /**
   * Once `memberId` is bound to `xuid` and the code is spent: the code is
   * unknown, the XUID cannot get another code, and after unbinding the XUID
   * has no binding.
   */
  method AfterBinding(bot: Bot, memberId: string, xuid: string, code: string)
    returns (checked: Result<CodeInformation>, reissued: Result<Option<CodeInformation>>,
             unbound: string, lookedUp: Result<User>)
    requires bot.service.codeStr.codes == map[] && bot.service.repo.rows == [UserData(memberId, xuid)]
    modifies bot.service.repo, bot.service.codeStr
    ensures checked == Err(App(CodeDoesNotExist))
    ensures reissued == Err(App(AlreadyBoundTo(memberId)))
    ensures unbound == BindingRemoved
    ensures lookedUp == Err(App(UserNotFound))
  {
    var service := bot.service;
    checked := service.CheckCode(code);
    assert service.repo.rows[0].xuid == xuid;
    reissued := service.IssueCode(xuid, Succeeds, [], 0, 0);
    assert service.repo.rows[0].discord == memberId;
    assert Drop(service.repo.rows, DiscordColumn, memberId) == [];
    unbound := bot.Unbind(memberId, Succeeds, Succeeds);
    lookedUp := service.GetUserByXUID(xuid, Succeeds);
  }

  /** The whole flow on a fresh service, for one Discord member and one Xbox account. */
  method BindUnbindScenario() returns (issued: Result<Option<CodeInformation>>, bound: string,
                                        checked: Result<CodeInformation>, reissued: Result<Option<CodeInformation>>,
                                        unbound: string, lookedUp: Result<User>)
    ensures issued == Ok(None)
    ensures bound == BindingCreated
    ensures checked == Err(App(CodeDoesNotExist))
    ensures reissued == Err(App(AlreadyBoundTo("disc-1")))
    ensures unbound == BindingRemoved
    ensures lookedUp == Err(App(UserNotFound))
  {
    var store := new DefaultCodeStore();
    var repo := new DefaultRepository([]);
    var service := new Service(repo, store);
    var bot := new Bot(service);
    var code;
    issued, code, bound := IssueThenBind(bot, "disc-1", "2535414123456789", Read([0, 0, 0, 0, 0, 0]));
    checked, reissued, unbound, lookedUp := AfterBinding(bot, "disc-1", "2535414123456789", code);
  }
}
