/** The transport's entry points as they run undisturbed, changing the files in place. */
module TransportDisk {
  import opened Wrappers
  import opened Transport
  import opened TransportOnce

  datatype Refusal =
    | EmptyKey | NoSuchPrincipal | NoSuchAgent | NoSuchMessage | NotARequest | NotAddressed | KeyReused | NameTaken

  /** `resolve_principal` and `resolve_agent`: the bus id an identity stands for, if it is declared. */
  datatype Directory = Directory(principal: string -> Option<string>, agent: string -> Option<string>)

  function Outward(answer: Outcome): Result<Receipt, Refusal> {
    match answer
    case Published(receipt) => Success(receipt)
    case Reused => Failure(KeyReused)
    case Clashed => Failure(NameTaken)
  }

  /** `publish`: the call it makes, or why it makes none. */
  function Publication(directory: Directory, principal: string, recipient: string, key: string,
                       tags: map<string, string>, body: string): Result<Call, Refusal>
  {
    if key == "" then Failure(EmptyKey)
    else if directory.principal(principal).None? then Failure(NoSuchPrincipal)
    else if directory.agent(recipient).None? then Failure(NoSuchAgent)
    else Success(PublishCall(directory.principal(principal).value, directory.agent(recipient).value, key, tags, body))
  }

  /** The request a reply answers, or why there is none. */
  function RequestFor(inbox: map<Name, Message>, archive: map<Name, Message>, agent: string, requestFilename: string)
    : Result<RequestEnvelope, Refusal>
  {
    var name := Name(agent, requestFilename);
    var found := if name in inbox then Some(inbox[name]) else if name in archive then Some(archive[name]) else None;
    if found.None? then Failure(NoSuchMessage)
    else if !IsRequest(found.value) then Failure(NotARequest)
    else
      var request := found.value.body.request;
      if request.version != REQUEST_VERSION || request.to != agent then Failure(NotAddressed)
      else Success(request)
  }

  /** `reply`: the call it makes, to the inbox of the principal the request names, or why it makes none. */
  function Response(directory: Directory, inbox: map<Name, Message>, archive: map<Name, Message>, identity: string,
                    requestFilename: string, tags: map<string, string>, body: string): Result<Call, Refusal>
  {
    if directory.agent(identity).None? then Failure(NoSuchAgent)
    else
      var agent := directory.agent(identity).value;
      var request := RequestFor(inbox, archive, agent, requestFilename);
      if request.Failure? then Failure(request.error)
      else if directory.principal(request.value.replyTo).None? then Failure(NoSuchPrincipal)
      else
        var call := ReplyCall(agent, request.value, requestFilename, tags, body);
        Success(call.(owner := directory.principal(request.value.replyTo).value))
  }

  class Disk {
    var records: map<Slot, Record>
    var inbox: map<Name, Message>
    var archive: map<Name, Message>

    constructor ()
      ensures records == map[] && inbox == map[] && archive == map[]
    {
      records, inbox, archive := map[], map[], map[];
    }

    /** `publish_once`: reserve, read back, compare, materialize. */
    method PublishOnce(call: Call, filename: string) returns (r: Result<Receipt, Refusal>)
      modifies this`records, this`inbox
      ensures r == Outward(Answer(old(records), old(inbox), call, filename))
      ensures records == old(records)[call.slot := Kept(old(records), call, filename)]
      ensures inbox == Delivered(old(records), old(inbox), call, filename)
    {
      var record := Candidate(call, filename);
      var created := call.slot !in records;
      if created {
        records := records[call.slot := record];
      } else {
        record := records[call.slot];
      }
      if !Matches(call, record) { return Failure(KeyReused); }
      var name := Name(call.owner, record.filename);
      var messageCreated := name !in inbox;
      if messageCreated {
        inbox := inbox[name := record.rendered];
      } else if inbox[name] != record.rendered {
        return Failure(NameTaken);
      }
      r := Success(ReceiptOf(call, created, messageCreated, record));
    }

    method Publish(directory: Directory, principal: string, recipient: string, key: string, tags: map<string, string>,
                   body: string, filename: string) returns (r: Result<Receipt, Refusal>)
      modifies this`records, this`inbox
      ensures Publication(directory, principal, recipient, key, tags, body).Failure? ==>
                && r == Failure(Publication(directory, principal, recipient, key, tags, body).error)
                && records == old(records) && inbox == old(inbox)
      ensures Publication(directory, principal, recipient, key, tags, body).Success? ==>
                var call := Publication(directory, principal, recipient, key, tags, body).value;
                && r == Outward(Answer(old(records), old(inbox), call, filename))
                && records == old(records)[call.slot := Kept(old(records), call, filename)]
                && inbox == Delivered(old(records), old(inbox), call, filename)
    {
      if key == "" { return Failure(EmptyKey); }
      var from := directory.principal(principal);
      if from.None? { return Failure(NoSuchPrincipal); }
      var to := directory.agent(recipient);
      if to.None? { return Failure(NoSuchAgent); }
      r := PublishOnce(PublishCall(from.value, to.value, key, tags, body), filename);
    }

    method ReplyTo(directory: Directory, identity: string, requestFilename: string, tags: map<string, string>,
                   body: string, filename: string) returns (r: Result<Receipt, Refusal>)
      modifies this`records, this`inbox
      ensures Response(directory, old(inbox), archive, identity, requestFilename, tags, body).Failure? ==>
                && r == Failure(Response(directory, old(inbox), archive, identity, requestFilename, tags, body).error)
                && records == old(records) && inbox == old(inbox)
      ensures Response(directory, old(inbox), archive, identity, requestFilename, tags, body).Success? ==>
                var call := Response(directory, old(inbox), archive, identity, requestFilename, tags, body).value;
                && r == Outward(Answer(old(records), old(inbox), call, filename))
                && records == old(records)[call.slot := Kept(old(records), call, filename)]
                && inbox == Delivered(old(records), old(inbox), call, filename)
    {
      var agent := directory.agent(identity);
      if agent.None? { return Failure(NoSuchAgent); }
      var request := RequestFor(inbox, archive, agent.value, requestFilename);
      if request.Failure? { return Failure(request.error); }
      var principal := directory.principal(request.value.replyTo);
      if principal.None? { return Failure(NoSuchPrincipal); }
      r := PublishOnce(ReplyCall(agent.value, request.value, requestFilename, tags, body).(owner := principal.value), filename);
    }
  }

  // ----- who is asked, and who is answered -----

  /** A request is made exactly for a key, a declared principal and a declared agent; it goes from the one to the other. */
  lemma PublicationTells(directory: Directory, principal: string, recipient: string, key: string,
                         tags: map<string, string>, body: string)
    ensures var r := Publication(directory, principal, recipient, key, tags, body);
            var from, to := directory.principal(principal), directory.agent(recipient);
            && (r == Failure(EmptyKey) <==> key == "")
            && (r == Failure(NoSuchPrincipal) <==> key != "" && from.None?)
            && (r == Failure(NoSuchAgent) <==> key != "" && from.Some? && to.None?)
            && (r.Success? <==> key != "" && from.Some? && to.Some?)
            && (r.Success? ==>
                  && r.value.owner == to.value && r.value.from == from.value && r.value.to == to.value
                  && r.value.slot == Slot(Outgoing(from.value), key) && r.value.receiptKey == key
                  && r.value.envelope == Request(RequestEnvelope(1, key, from.value, to.value, from.value, tags, body)))
  {
  }

  /** A reply is made exactly for a declared agent, to a request in its inbox or archive, sent to it, by a declared principal. */
  lemma ResponseTells(directory: Directory, inbox: map<Name, Message>, archive: map<Name, Message>, identity: string,
                      filename: string, tags: map<string, string>, body: string)
    ensures var r := Response(directory, inbox, archive, identity, filename, tags, body);
            r.Success? <==> exists agent, message ::
              && directory.agent(identity) == Some(agent) && Stands(inbox, archive, Name(agent, filename), message)
              && IsRequest(message) && message.body.request.version == 1 && message.body.request.to == agent
              && directory.principal(message.body.request.replyTo).Some?
    ensures forall agent, message |
              && directory.agent(identity) == Some(agent) && Stands(inbox, archive, Name(agent, filename), message)
              && Response(directory, inbox, archive, identity, filename, tags, body).Success? ::
              var call := Response(directory, inbox, archive, identity, filename, tags, body).value;
              var request := message.body.request;
              && Some(call.owner) == directory.principal(request.replyTo) && call.from == agent && call.to == request.replyTo
              && call.slot == Slot(Replies(agent), request.replyTo + ['\0'] + request.key)
              && call.receiptKey == request.key && call.inReplyTo == Some(filename)
              && call.envelope == Reply(ReplyEnvelope(1, request.key, filename, agent, tags, body))
  {
  }

  /** The message under a name: the one in the inbox, or the archived one if it is not there. */
  predicate Stands(inbox: map<Name, Message>, archive: map<Name, Message>, name: Name, message: Message) {
    if name in inbox then inbox[name] == message else name in archive && archive[name] == message
  }

  /** A request published under a fresh key and name is found by the agent it is for, until it is filed elsewhere. */
  lemma PublishedIsFound(records: map<Slot, Record>, inbox: map<Name, Message>, archive: map<Name, Message>,
                         principal: string, agent: string, key: string, tags: map<string, string>, body: string, f: string)
    requires Slot(Outgoing(principal), key) !in records && Name(agent, f) !in inbox
    ensures var after := Delivered(records, inbox, PublishCall(principal, agent, key, tags, body), f);
            RequestFor(after, archive, agent, f)
            == Success(RequestEnvelope(1, key, principal, agent, principal, tags, body))
  {
  }
}
