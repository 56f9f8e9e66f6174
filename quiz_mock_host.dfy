/** The quiz's in-process `MockHostCommunicator` and the two `MockClientCommunicator`s it talks
    to directly. The host admits a player name only once, tells the joining client whether it
    was admitted, and hands every question to both clients. */
module QuizMockHost {
  import opened Common
  import QuizGame
  import QuizHost

  class MockClient {
    /** Whether a `HostJoinStatusMessageReceived` handler is attached; the event has no
        default handler, so raising it without one dereferences null. */
    var hasJoinStatusHandler: bool
    /** The `IsJoined` values delivered so far. */
    var joinStatuses: seq<bool>
    /** The questions delivered through `NewQuestionAvailable`; `None` is a null question. */
    var questions: seq<Option<QuizGame.Question>>

    constructor(hasJoinStatusHandler: bool)
      ensures this.hasJoinStatusHandler == hasJoinStatusHandler && joinStatuses == [] && questions == []
    {
      this.hasJoinStatusHandler := hasJoinStatusHandler;
      joinStatuses := [];
      questions := [];
    }

    /** `OnHostJoinStatusMessageReceived(isJoined)`. */
    method OnHostJoinStatusMessageReceived(isJoined: bool) returns (r: Result<()>)
      modifies this
      ensures r.Ok? <==> hasJoinStatusHandler
      ensures r.Err? ==> r.error == NullReference
      ensures joinStatuses == old(joinStatuses) + (if hasJoinStatusHandler then [isJoined] else [])
      ensures questions == old(questions) && hasJoinStatusHandler == old(hasJoinStatusHandler)
    {
      if !hasJoinStatusHandler {
        return Err(NullReference);
      }
      joinStatuses := joinStatuses + [isJoined];
      return Ok(());
    }

    /** `OnNewQuestionAvailable(question)`. */
    method OnNewQuestionAvailable(question: Option<QuizGame.Question>)
      modifies this
      ensures questions == old(questions) + [question]
      ensures joinStatuses == old(joinStatuses) && hasJoinStatusHandler == old(hasJoinStatusHandler)
    {
      questions := questions + [question];
    }
  }

  class MockHostCommunicator {
    const client1: MockClient
    const client2: MockClient
    /** `clientList`: the admitted player names. */
    var clientList: seq<string>
    /** The names of the `PlayerJoined` and `PlayerDeparted` events raised so far. */
    var joined: seq<string>
    var departed: seq<string>
    /** The `AnswerReceived` events raised so far. */
    var answers: seq<QuizHost.AnswerReceived>

    /** No name is admitted twice. */
    ghost predicate Valid()
      reads this
    {
      Distinct(clientList)
    }

    constructor(client1: MockClient, client2: MockClient)
      ensures Valid() && this.client1 == client1 && this.client2 == client2
      ensures clientList == [] && joined == [] && departed == [] && answers == []
    {
      this.client1 := client1;
      this.client2 := client2;
      clientList := [];
      joined := [];
      departed := [];
      answers := [];
    }

    /** `SendQuestionAsync(question)`: both clients receive the question. */
    method SendQuestion(question: Option<QuizGame.Question>)
      requires client1 != client2
      modifies client1, client2
      ensures client1.questions == old(client1.questions) + [question]
      ensures client2.questions == old(client2.questions) + [question]
      ensures client1.joinStatuses == old(client1.joinStatuses) && client2.joinStatuses == old(client2.joinStatuses)
      ensures client1.hasJoinStatusHandler == old(client1.hasJoinStatusHandler)
      ensures client2.hasJoinStatusHandler == old(client2.hasJoinStatusHandler)
    {
      client1.OnNewQuestionAvailable(question);
      client2.OnNewQuestionAvailable(question);
    }

    /** `OnPlayerJoined(client, name)`: a new name is admitted, announced and acknowledged with
        true; a name already admitted changes nothing and is answered with false. */
    method OnPlayerJoined(client: MockClient, name: string) returns (r: Result<()>)
      requires Valid()
      modifies this, client
      ensures Valid()
      ensures name !in old(clientList) ==> clientList == old(clientList) + [name] && joined == old(joined) + [name]
      ensures name in old(clientList) ==> clientList == old(clientList) && joined == old(joined)
      ensures r.Ok? <==> client.hasJoinStatusHandler
      ensures r.Err? ==> r.error == NullReference
      ensures client.joinStatuses
              == old(client.joinStatuses) + (if client.hasJoinStatusHandler then [name !in old(clientList)] else [])
      ensures client.questions == old(client.questions) && client.hasJoinStatusHandler == old(client.hasJoinStatusHandler)
      ensures departed == old(departed) && answers == old(answers)
    {
      if name !in clientList {
        clientList := clientList + [name];
        joined := joined + [name];
        r := client.OnHostJoinStatusMessageReceived(true);
      } else {
        r := client.OnHostJoinStatusMessageReceived(false);
      }
    }

    /** `OnPlayerDeparted(name)`: only an admitted name is removed and announced. */
    method OnPlayerDeparted(name: string)
      requires Valid()
      modifies this
      ensures Valid()
      ensures clientList == RemoveFirst(old(clientList), name)
      ensures name !in clientList
      ensures forall n | n != name :: n in clientList <==> n in old(clientList)
      ensures departed == old(departed) + (if name in old(clientList) then [name] else [])
      ensures joined == old(joined) && answers == old(answers)
    {
      RemoveFirstOfDistinct(clientList, name);
      if name in clientList {
        clientList := RemoveFirst(clientList, name);
        departed := departed + [name];
      }
    }

    /** `OnAnswerReceived(name, index)`: forwarded unchanged. */
    method OnAnswerReceived(name: string, answerIndex: int)
      modifies this
      ensures answers == old(answers) + [QuizHost.AnswerReceived(name, answerIndex)]
      ensures clientList == old(clientList) && joined == old(joined) && departed == old(departed)
    {
      answers := answers + [QuizHost.AnswerReceived(name, answerIndex)];
    }
  }

  /** Admitting a new name and then letting it leave restores the list. */
  lemma JoinThenLeaveRestoresList(names: seq<string>, name: string)
    requires name !in names
    ensures RemoveFirst(names + [name], name) == names
  {
    var s := names + [name];
    assert s[..|names|] == names && s[|names|] == name;
    assert s[|names| + 1..] == [];
  }

  /** Two clients asking for the same name: the first is admitted, the second turned away,
      and the name is listed once. */
  method SameNameJoinsOnce() returns (first: seq<bool>, second: seq<bool>, admitted: seq<string>)
    ensures first == [true] && second == [false] && admitted == ["Player"]
  {
    var c1 := new MockClient(true);
    var c2 := new MockClient(true);
    var host := new MockHostCommunicator(c1, c2);
    var _ := host.OnPlayerJoined(c1, "Player");
    var _ := host.OnPlayerJoined(c2, "Player");
    first, second, admitted := c1.joinStatuses, c2.joinStatuses, host.clientList;
  }
}
