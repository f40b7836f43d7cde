/** The JSON replies the server sends (`res.status(s).json(body)`), and the
    response object handlers write to. */
module Http {
  import opened Wrappers
  import opened UsersModel
  import opened Documents

  /** The `data` member of a reply body. */
  datatype Data =
    | NoData
    | Session(token: string, user: PublicUser)   // { token, user }
    | ProductList(items: seq<Doc>)              // an array of products
    | OneProduct(item: Doc)                     // one product
    | ProductId(id: string)                     // { id }

  /** Status code and body `{ success, message?, data?, count?, error? }`;
      `debug` is the `error` member some 500 replies add. */
  datatype Reply = Reply(status: nat, success: bool, message: Option<string>, data: Data,
                         count: Option<nat>, debug: Option<string>)

  /** `{ success: false, message }` with the given status. */
  function Fail(status: nat, message: string): Reply
  {
    Reply(status, false, Some(message), NoData, None, None)
  }

  /** Express's `res`: at most one reply is written. */
  class ServerResponse {
    var reply: Option<Reply>

    constructor ()
      ensures reply == None
    {
      reply := None;
    }

    /** `res.status(r.status).json(...)`. */
    method Send(r: Reply)
      modifies this
      ensures reply == Some(r)
    {
      reply := Some(r);
    }
  }
}
