/** The quiz game's `Game`: players, one answer table per player, a question index that
    `StartGame` and `NextQuestion` move, scoring and the winner. */
module QuizGame {
  import opened Common

  /** A quiz question. The answer tables are keyed by question object; the questions of a
      game are told apart by their position in its list. */
  datatype Question = Question(text: string, options: seq<string>, correctAnswerIndex: int)

  /** One entry of a player's answer table: question position and chosen option. */
  datatype Entry = Entry(question: nat, answer: int)

  /** A player's answer table, in the order its keys were first inserted. */
  type Table = seq<Entry>

  predicate KeysDistinct(t: Table)
  {
    forall i, j | 0 <= i < j < |t| :: t[i].question != t[j].question
  }

  predicate HasKey(t: Table, q: nat)
  {
    exists i | 0 <= i < |t| :: t[i].question == q
  }

  /** Where key `q` sits in the table. */
  function KeyIndex(t: Table, q: nat): (i: nat)
    requires HasKey(t, q)
    ensures i < |t| && t[i].question == q
    ensures forall j | 0 <= j < i :: t[j].question != q
  {
    if t[0].question == q then 0
    else
      assert HasKey(t[1..], q) by {
        var k :| 0 <= k < |t| && t[k].question == q;
        assert t[1..][k - 1] == t[k];
      }
      1 + KeyIndex(t[1..], q)
  }

  /** In a table without repeated keys, a key's position is the one entry holding it. */
  lemma KeyIndexUnique(t: Table, q: nat, i: nat)
    requires KeysDistinct(t) && i < |t| && t[i].question == q
    ensures HasKey(t, q) && KeyIndex(t, q) == i
  {
  }

  /** `table.TryGetValue(q)`: the value stored for question `q`, if any. */
  function AnswerFor(t: Table, q: nat): (r: Option<int>)
    ensures r.Some? <==> HasKey(t, q)
    ensures r.Some? ==> exists i | 0 <= i < |t| :: t[i] == Entry(q, r.value)
  {
    if HasKey(t, q) then
      var i := KeyIndex(t, q);
      assert t[i] == Entry(q, t[i].answer);
      Some(t[i].answer)
    else None
  }

  /** `table[q] = answer`: overwrites in place when the key exists, otherwise appends. */
  function SetAnswer(t: Table, q: nat, answer: int): (r: Table)
    requires KeysDistinct(t)
    ensures KeysDistinct(r)
    ensures AnswerFor(r, q) == Some(answer)
    ensures forall p | p != q :: AnswerFor(r, p) == AnswerFor(t, p)
    ensures |r| == if HasKey(t, q) then |t| else |t| + 1
    ensures forall i | 0 <= i < |t| :: r[i].question == t[i].question
  {
    var r := if HasKey(t, q) then t[KeyIndex(t, q) := Entry(q, answer)] else t + [Entry(q, answer)];
    assert forall i | 0 <= i < |t| :: r[i].question == t[i].question;
    var n := |r| - 1;
    var k := if HasKey(t, q) then KeyIndex(t, q) else n;
    assert r[k] == Entry(q, answer);
    KeyIndexUnique(r, q, k);
    forall p | p != q
      ensures AnswerFor(r, p) == AnswerFor(t, p)
    {
      if HasKey(t, p) {
        var i := KeyIndex(t, p);
        assert r[i] == t[i];
        KeyIndexUnique(r, p, i);
      } else {
        assert !HasKey(r, p);
      }
    }
    r
  }

  lemma NoKeyNoAnswer(t: Table, q: nat)
    requires forall i | 0 <= i < |t| :: t[i].question != q
    ensures AnswerFor(t, q) == None
  {
  }

  // ---------------------------------------------------------------------------------------
  // Scoring

  function Count(bs: seq<bool>): (n: nat)
    ensures n <= |bs|
  {
    if bs == [] then 0 else Count(bs[1..]) + (if bs[0] then 1 else 0)
  }

  function CorrectAnswers(questions: seq<Question>): (c: seq<int>)
    ensures |c| == |questions| && forall i | 0 <= i < |c| :: c[i] == questions[i].correctAnswerIndex
  {
    seq(|questions|, i requires 0 <= i < |questions| => questions[i].correctAnswerIndex)
  }

  /** The score `GetResults` computes as written: the k-th stored answer, in insertion order,
      against the k-th question's correct index, for k below the shorter of the two. */
  function PositionalScore(t: Table, questions: seq<Question>): (n: nat)
    ensures n <= |t| && n <= |questions|
  {
    var correct := CorrectAnswers(questions);
    var k := if |t| < |correct| then |t| else |correct|;
    Count(seq(k, i requires 0 <= i < k => t[i].answer == correct[i]))
  }

  /** The score as intended: the number of questions whose stored answer is their correct
      index. */
  function Score(t: Table, questions: seq<Question>): (n: nat)
    ensures n <= |questions|
  {
    Count(seq(|questions|, q requires 0 <= q < |questions| => AnswerFor(t, q) == Some(questions[q].correctAnswerIndex)))
  }

  /** On the two-question quiz of the unit tests: a player who skipped the first question
      and picked option 1 (right), or option 0 (wrong), on the second. */
  const SkipFirstRight: Table := [Entry(1, 1)]
  const SkipFirstWrong: Table := [Entry(1, 0)]

  /** Skipping a question misaligns the positional score: a correct answer to the second
      question scores nothing, and a wrong one scores a point. */
  lemma PositionalScoreMisalignsAfterSkip()
    ensures PositionalScore(SkipFirstRight, TwoLetterQuiz()) == 0 && Score(SkipFirstRight, TwoLetterQuiz()) == 1
    ensures PositionalScore(SkipFirstWrong, TwoLetterQuiz()) == 1 && Score(SkipFirstWrong, TwoLetterQuiz()) == 0
  {
    var c := CorrectAnswers(TwoLetterQuiz());
    assert c == [0, 1];
    assert seq(1, i requires 0 <= i < 1 => SkipFirstRight[i].answer == c[i]) == [false];
    assert seq(1, i requires 0 <= i < 1 => SkipFirstWrong[i].answer == c[i]) == [true];
    assert SkipFirstRight[0].question == 1 && HasKey(SkipFirstRight, 1);
    assert SkipFirstWrong[0].question == 1 && HasKey(SkipFirstWrong, 1);
    assert AnswerFor(SkipFirstRight, 0) == None && AnswerFor(SkipFirstRight, 1) == Some(1);
    assert AnswerFor(SkipFirstWrong, 0) == None && AnswerFor(SkipFirstWrong, 1) == Some(0);
    assert seq(2, q requires 0 <= q < 2 => AnswerFor(SkipFirstRight, q) == Some(TwoLetterQuiz()[q].correctAnswerIndex))
           == [false, true];
    assert seq(2, q requires 0 <= q < 2 => AnswerFor(SkipFirstWrong, q) == Some(TwoLetterQuiz()[q].correctAnswerIndex))
           == [false, false];
    assert [false, true][1..] == [true] && [true][1..] == [];
    assert Count([false, true]) == 1;
  }

  /** A table whose entries are the first questions in order, as when a player answers every
      question as it comes. */
  predicate InOrder(t: Table)
  {
    forall i | 0 <= i < |t| :: t[i].question == i
  }

  lemma CountPointwise(a: seq<bool>, b: seq<bool>)
    requires |a| == |b| && forall i | 0 <= i < |a| :: a[i] == b[i]
    ensures Count(a) == Count(b)
  {
    assert a == b;
  }

  /** Count over a sequence whose tail beyond `k` is all false equals count over its prefix. */
  lemma {:induction false} CountFalseSuffix(a: seq<bool>, k: nat)
    requires k <= |a| && forall i | k <= i < |a| :: !a[i]
    ensures Count(a) == Count(a[..k])
  {
    if |a| > 0 {
      if k == 0 {
        CountFalseSuffix(a[1..], 0);
        assert a[1..][..0] == a[..0];
      } else {
        CountFalseSuffix(a[1..], k - 1);
        assert a[1..][..k - 1] == a[..k][1..];
      }
    }
  }

  /** When answers were recorded in question order, the positional score is the intended
      score, which is why the tests, that always answer in order, pass. */
  lemma ScoresAgreeInOrder(t: Table, questions: seq<Question>)
    requires InOrder(t) && |t| <= |questions|
    ensures PositionalScore(t, questions) == Score(t, questions)
  {
    var correct := CorrectAnswers(questions);
    var pos := seq(|t|, i requires 0 <= i < |t| => t[i].answer == correct[i]);
    var all := seq(|questions|, q requires 0 <= q < |questions| => AnswerFor(t, q) == Some(questions[q].correctAnswerIndex));
    forall q | 0 <= q < |questions|
      ensures all[q] == (q < |t| && pos[q])
    {
      if q < |t| {
        InOrderAnswer(t, q);
      } else {
        NoKeyNoAnswer(t, q);
      }
    }
    CountFalseSuffix(all, |t|);
    CountPointwise(all[..|t|], pos);
  }

  lemma InOrderAnswer(t: Table, q: nat)
    requires InOrder(t) && q < |t|
    ensures AnswerFor(t, q) == Some(t[q].answer)
  {
    assert t[q].question == q;
    var i := 0;
    while i < q
      invariant i <= q && AnswerFor(t, q) == AnswerFor(t[i..], q)
    {
      assert t[i..][0].question == i;
      assert t[i..][1..] == t[i + 1..];
      i := i + 1;
    }
  }

  function B2I(b: bool): nat
  {
    if b then 1 else 0
  }

  lemma {:induction false} CountUpdate(a: seq<bool>, i: nat, v: bool)
    requires i < |a|
    ensures Count(a[i := v]) == Count(a) - B2I(a[i]) + B2I(v)
  {
    if i == 0 {
      assert a[i := v][1..] == a[1..];
    } else {
      CountUpdate(a[1..], i - 1, v);
      assert a[i := v][1..] == a[1..][i - 1 := v];
    }
  }

  lemma {:induction false} CountAllFalse(a: seq<bool>)
    requires forall i | 0 <= i < |a| :: !a[i]
    ensures Count(a) == 0
  {
    if a != [] {
      CountAllFalse(a[1..]);
    }
  }

  /** Nobody who has answered nothing has scored. */
  lemma ScoreOfEmptyTable(questions: seq<Question>)
    ensures Score([], questions) == 0
  {
    CountAllFalse(seq(|questions|, q requires 0 <= q < |questions| => AnswerFor([], q) == Some(questions[q].correctAnswerIndex)));
  }

  /** Storing an answer to question `q` changes the score by that question alone: it loses
      the point of a correct earlier answer and gains one for a correct new one. */
  lemma ScoreAfterSetAnswer(t: Table, questions: seq<Question>, q: nat, answer: int)
    requires KeysDistinct(t) && q < |questions|
    ensures Score(SetAnswer(t, q, answer), questions)
            == Score(t, questions) - B2I(AnswerFor(t, q) == Some(questions[q].correctAnswerIndex))
               + B2I(answer == questions[q].correctAnswerIndex)
  {
    var r := SetAnswer(t, q, answer);
    var before := seq(|questions|, k requires 0 <= k < |questions| => AnswerFor(t, k) == Some(questions[k].correctAnswerIndex));
    var after := seq(|questions|, k requires 0 <= k < |questions| => AnswerFor(r, k) == Some(questions[k].correctAnswerIndex));
    assert after == before[q := answer == questions[q].correctAnswerIndex];
    CountUpdate(before, q, answer == questions[q].correctAnswerIndex);
  }

  // ---------------------------------------------------------------------------------------
  // Results and winner

  /** One row of `GetResults`, and one answer-table row of `SubmittedAnswers`. */
  datatype PlayerScore = PlayerScore(name: string, score: nat)
  datatype PlayerAnswers = PlayerAnswers(name: string, table: Table)

  /** `Aggregate((a, b) => a.Value > b.Value ? a : b)`: a left fold that keeps the later row
      on a tie. */
  function Aggregate(rows: seq<PlayerScore>): (w: nat)
    requires rows != []
    ensures w < |rows|
    ensures forall j | 0 <= j < |rows| :: rows[j].score <= rows[w].score
    ensures forall j | w < j < |rows| :: rows[j].score < rows[w].score
  {
    if |rows| == 1 then 0
    else
      var a := Aggregate(rows[..|rows| - 1]);
      if rows[a].score > rows[|rows| - 1].score then a else |rows| - 1
  }

  function Results(answers: seq<PlayerAnswers>, questions: seq<Question>): (rows: seq<PlayerScore>)
    ensures |rows| == |answers|
    ensures forall i | 0 <= i < |rows| ::
              rows[i].name == answers[i].name && rows[i].score == Score(answers[i].table, questions)
  {
    seq(|answers|, i requires 0 <= i < |answers| => PlayerScore(answers[i].name, Score(answers[i].table, questions)))
  }

  /** The rows `GetResults` computes as written, each table scored positionally. */
  function PositionalResults(answers: seq<PlayerAnswers>, questions: seq<Question>): (rows: seq<PlayerScore>)
    ensures |rows| == |answers|
  {
    seq(|answers|, i requires 0 <= i < |answers| => PlayerScore(answers[i].name, PositionalScore(answers[i].table, questions)))
  }

  /** When every table was filled in question order, the rows as written are the corrected
      rows, so the winner as written is the corrected winner too. */
  lemma ResultsAgreeInOrder(answers: seq<PlayerAnswers>, questions: seq<Question>)
    requires forall i | 0 <= i < |answers| :: InOrder(answers[i].table) && |answers[i].table| <= |questions|
    ensures PositionalResults(answers, questions) == Results(answers, questions)
  {
    forall i | 0 <= i < |answers|
      ensures PositionalResults(answers, questions)[i] == Results(answers, questions)[i]
    {
      ScoresAgreeInOrder(answers[i].table, questions);
    }
  }

  ghost predicate NamesDistinct(answers: seq<PlayerAnswers>)
  {
    forall i, j | 0 <= i < j < |answers| :: answers[i].name != answers[j].name
  }

  predicate HasPlayer(answers: seq<PlayerAnswers>, name: string)
  {
    exists i | 0 <= i < |answers| :: answers[i].name == name
  }

  function PlayerIndex(answers: seq<PlayerAnswers>, name: string): (i: nat)
    requires HasPlayer(answers, name)
    ensures i < |answers| && answers[i].name == name
    ensures forall j | 0 <= j < i :: answers[j].name != name
  {
    if answers[0].name == name then 0
    else
      assert HasPlayer(answers[1..], name) by {
        var k :| 0 <= k < |answers| && answers[k].name == name;
        assert answers[1..][k - 1] == answers[k];
      }
      1 + PlayerIndex(answers[1..], name)
  }

  function RemovePlayerAnswers(answers: seq<PlayerAnswers>, name: string): (r: seq<PlayerAnswers>)
    ensures HasPlayer(answers, name) ==> |r| == |answers| - 1
    ensures !HasPlayer(answers, name) ==> r == answers
    ensures NamesDistinct(answers) ==> NamesDistinct(r) && !HasPlayer(r, name)
    ensures forall p | p != name :: HasPlayer(r, p) <==> HasPlayer(answers, p)
    ensures forall x | x in r :: x in answers
  {
    if HasPlayer(answers, name) then
      var i := PlayerIndex(answers, name);
      var r := answers[..i] + answers[i + 1..];
      assert forall k | 0 <= k < |r| :: r[k] == (if k < i then answers[k] else answers[k + 1]);
      assert forall p | p != name && HasPlayer(answers, p) :: HasPlayer(r, p) by {
        forall p | p != name && HasPlayer(answers, p) ensures HasPlayer(r, p) {
          var k :| 0 <= k < |answers| && answers[k].name == p;
          if k < i { assert r[k] == answers[k]; } else { assert r[k - 1] == answers[k]; }
        }
      }
      r
    else
      answers
  }

  ghost predicate TablesValid(answers: seq<PlayerAnswers>)
  {
    forall x | x in answers :: KeysDistinct(x.table)
  }

  /** `SubmittedAnswers[name][q] = answer` on a player who has a table: only that player's
      answer to `q` changes, and the player keeps its place. */
  function StoreAnswer(answers: seq<PlayerAnswers>, name: string, q: nat, answer: int): (r: seq<PlayerAnswers>)
    requires HasPlayer(answers, name) && TablesValid(answers)
    ensures |r| == |answers| && TablesValid(r)
    ensures forall j | 0 <= j < |r| :: r[j].name == answers[j].name
    ensures forall j | 0 <= j < |r| && answers[j].name != name :: r[j] == answers[j]
    ensures NamesDistinct(answers) ==> NamesDistinct(r)
    ensures var p := PlayerIndex(answers, name);
            && AnswerFor(r[p].table, q) == Some(answer)
            && forall k | k != q :: AnswerFor(r[p].table, k) == AnswerFor(answers[p].table, k)
  {
    var p := PlayerIndex(answers, name);
    assert answers[p] in answers;
    var r := answers[p := PlayerAnswers(name, SetAnswer(answers[p].table, q, answer))];
    assert forall x | x in r :: x == r[p] || x in answers;
    r
  }

  class Game {
    const questions: seq<Question>
    /** `PlayerNames`; the collection allows repeats. */
    var playerNames: seq<string>
    /** `SubmittedAnswers`, in insertion order. */
    var submittedAnswers: seq<PlayerAnswers>
    var currentQuestionIndex: int
    /** The questions announced through `NewQuestionAvailable`; `None` is a null question. */
    var announced: seq<Option<Question>>

    ghost predicate Valid()
      reads this
    {
      NamesDistinct(submittedAnswers)
      && TablesValid(submittedAnswers)
      && currentQuestionIndex >= -1
    }

    constructor(questions: seq<Question>)
      ensures Valid() && this.questions == questions && playerNames == [] && submittedAnswers == []
      ensures currentQuestionIndex == -1 && announced == []
    {
      this.questions := questions;
      playerNames := [];
      submittedAnswers := [];
      currentQuestionIndex := -1;
      announced := [];
    }

    /** `CurrentQuestion`: the question at the index while it is in range, else null. */
    function CurrentQuestion(): (q: Option<Question>)
      reads this
      ensures q.Some? <==> 0 <= currentQuestionIndex < |questions|
      ensures q.Some? ==> q.value == questions[currentQuestionIndex]
    {
      if currentQuestionIndex > -1 && currentQuestionIndex < |questions| then Some(questions[currentQuestionIndex]) else None
    }

    /** `IsGameOver`: the index has run past the last question, so once the game has started
        there is no current question exactly when it is over. */
    function IsGameOver(): (over: bool)
      reads this
      ensures over ==> CurrentQuestion().None?
      ensures currentQuestionIndex < 0 ==> !over
      ensures currentQuestionIndex >= 0 ==> (over <==> CurrentQuestion().None?)
    {
      currentQuestionIndex >= |questions|
    }

    /** `AddPlayer(name)`: a name already listed gets one "." appended (only once). The name is
        listed first; a table insert for a name that already has a table then throws, after
        the list has grown. */
    method AddPlayer(name: string) returns (r: Result<()>)
      requires Valid()
      modifies this
      ensures Valid()
      ensures var stored := if name in old(playerNames) then name + "." else name;
              && playerNames == old(playerNames) + [stored]
              && (r.Err? <==> HasPlayer(old(submittedAnswers), stored))
              && (r.Err? ==> r.error == ArgumentError && submittedAnswers == old(submittedAnswers))
              && (r.Ok? ==> submittedAnswers == old(submittedAnswers) + [PlayerAnswers(stored, [])])
      ensures currentQuestionIndex == old(currentQuestionIndex) && announced == old(announced)
    {
      var stored := name;
      if name in playerNames {
        stored := name + ".";
      }
      playerNames := playerNames + [stored];
      if HasPlayer(submittedAnswers, stored) {
        return Err(ArgumentError);
      }
      submittedAnswers := submittedAnswers + [PlayerAnswers(stored, [])];
      return Ok(());
    }

    /** `RemovePlayer(name)`: only a listed name is removed (its first occurrence), together
        with its answer table. */
    method RemovePlayer(name: string)
      requires Valid()
      modifies this
      ensures Valid()
      ensures name in old(playerNames) ==>
                playerNames == RemoveFirst(old(playerNames), name)
                && submittedAnswers == RemovePlayerAnswers(old(submittedAnswers), name)
                && !HasPlayer(submittedAnswers, name)
      ensures name !in old(playerNames) ==>
                playerNames == old(playerNames) && submittedAnswers == old(submittedAnswers)
      ensures currentQuestionIndex == old(currentQuestionIndex) && announced == old(announced)
    {
      if name in playerNames {
        playerNames := RemoveFirst(playerNames, name);
        submittedAnswers := RemovePlayerAnswers(submittedAnswers, name);
      }
    }

    /** `SubmitAnswer(name, index)`: false without a name or a current question; a player
        without a table throws; otherwise sets that player's answer to the current question. */
    method SubmitAnswer(name: Option<string>, answerIndex: int) returns (r: Result<bool>)
      requires Valid()
      modifies this
      ensures Valid()
      ensures r == Ok(false) <==> name.None? || CurrentQuestion().None?
      ensures r.Err? <==> name.Some? && CurrentQuestion().Some? && !HasPlayer(old(submittedAnswers), name.value)
      ensures r.Err? ==> r.error == KeyNotFound
      ensures r != Ok(true) ==> submittedAnswers == old(submittedAnswers)
      ensures r == Ok(true) ==>
                submittedAnswers == StoreAnswer(old(submittedAnswers), name.value, currentQuestionIndex, answerIndex)
      ensures playerNames == old(playerNames) && currentQuestionIndex == old(currentQuestionIndex)
      ensures announced == old(announced)
    {
      if name.None? || CurrentQuestion().None? {
        return Ok(false);
      }
      if !HasPlayer(submittedAnswers, name.value) {
        return Err(KeyNotFound);
      }
      submittedAnswers := StoreAnswer(submittedAnswers, name.value, currentQuestionIndex, answerIndex);
      return Ok(true);
    }

    /** `StartGame`: index 0, and the current question is announced. */
    method StartGame()
      requires Valid()
      modifies this
      ensures Valid()
      ensures currentQuestionIndex == 0 && announced == old(announced) + [CurrentQuestion()]
      ensures playerNames == old(playerNames) && submittedAnswers == old(submittedAnswers)
    {
      currentQuestionIndex := 0;
      announced := announced + [CurrentQuestion()];
    }

    /** `NextQuestion`: the index moves on by one, and the current question (null once past
        the end) is announced. */
    method NextQuestion()
      requires Valid()
      modifies this
      ensures Valid()
      ensures currentQuestionIndex == old(currentQuestionIndex) + 1
      ensures announced == old(announced) + [CurrentQuestion()]
      ensures playerNames == old(playerNames) && submittedAnswers == old(submittedAnswers)
    {
      currentQuestionIndex := currentQuestionIndex + 1;
      announced := announced + [CurrentQuestion()];
    }

    /** `GetResults`: each player with a table and that table's score. */
    function GetResults(): (rows: seq<PlayerScore>)
      reads this
      ensures |rows| == |submittedAnswers|
      ensures forall i | 0 <= i < |rows| :: rows[i].name == submittedAnswers[i].name
                                            && rows[i].score == Score(submittedAnswers[i].table, questions)
    {
      Results(submittedAnswers, questions)
    }

    /** `GetResults` as written agrees with the corrected rows while every player answered
        the questions in order and no further. */
    lemma GetResultsAgreeInOrder()
      requires forall i | 0 <= i < |submittedAnswers| ::
                 InOrder(submittedAnswers[i].table) && |submittedAnswers[i].table| <= |questions|
      ensures GetResults() == PositionalResults(submittedAnswers, questions)
    {
      ResultsAgreeInOrder(submittedAnswers, questions);
    }

    /** `Winner`: null until the game is over; then the player with the highest score, the
        later one on a tie; with no players the aggregate throws. */
    function Winner(): (r: Result<Option<string>>)
      reads this
      ensures !IsGameOver() ==> r == Ok(None)
      ensures IsGameOver() ==> (r.Err? <==> submittedAnswers == [])
      ensures IsGameOver() && submittedAnswers != [] ==> r.Ok? && r.value.Some?
      ensures r.Err? ==> r.error == InvalidOperation
      ensures r.Ok? && r.value.Some? ==>
                exists w | 0 <= w < |GetResults()| ::
                  && GetResults()[w].name == r.value.value
                  && (forall j | 0 <= j < |GetResults()| :: GetResults()[j].score <= GetResults()[w].score)
                  && (forall j | w < j < |GetResults()| :: GetResults()[j].score < GetResults()[w].score)
    {
      if !IsGameOver() then Ok(None)
      else
        var rows := GetResults();
        if rows == [] then Err(InvalidOperation)
        else Ok(Some(rows[Aggregate(rows)].name))
    }
  }

  // ---------------------------------------------------------------------------------------
  // The unit-test scenarios, on the two-question quiz they share

  function TwoLetterQuiz(): (qs: seq<Question>)
    ensures |qs| == 2 && qs[0].correctAnswerIndex == 0 && qs[1].correctAnswerIndex == 1
  {
    [Question("What's the first letter of the alphabet?", ["a", "b", "c", "d"], 0),
     Question("What's the second letter of the alphabet?", ["a", "b", "c", "d"], 1)]
  }

  /** Two players, one right and one wrong on the first question, both picking option 1 on
      the second: scores 1 and 0 after the first question, 2 and 1 at the end. */
  method ScoresMatchCorrectAnswerCounts() returns (first: seq<PlayerScore>, last: seq<PlayerScore>, over: bool)
    ensures first == [PlayerScore("Player One", 1), PlayerScore("Player Two", 0)]
    ensures last == [PlayerScore("Player One", 2), PlayerScore("Player Two", 1)]
    ensures over
  {
    var qs := TwoLetterQuiz();
    var game;
    game, first := FirstQuestionOneRightOneWrong();
    var t1, u1 := SetAnswer([], 0, 0), SetAnswer([], 0, 1);
    game.NextQuestion();
    ScoreAfterSetAnswer(t1, qs, 1, 1);
    ScoreAfterSetAnswer(u1, qs, 1, 1);
    BothAnswer(game, t1, u1, 1, 1);
    game.NextQuestion();
    over := game.IsGameOver();
    assert AnswerFor(t1, 1) == None && AnswerFor(u1, 1) == None;
    assert Score(SetAnswer(t1, 1, 1), qs) == 2 && Score(SetAnswer(u1, 1, 1), qs) == 1;
    last := game.GetResults();
    assert last[0] == PlayerScore("Player One", 2) && last[1] == PlayerScore("Player Two", 1);
  }

  /** Two players join; on the first question "Player One" picks option 0 (right) and
      "Player Two" option 1 (wrong). */
  method FirstQuestionOneRightOneWrong() returns (game: Game, first: seq<PlayerScore>)
    ensures fresh(game) && game.Valid() && game.questions == TwoLetterQuiz() && game.currentQuestionIndex == 0
    ensures game.submittedAnswers
            == [PlayerAnswers("Player One", SetAnswer([], 0, 0)), PlayerAnswers("Player Two", SetAnswer([], 0, 1))]
    ensures first == [PlayerScore("Player One", 1), PlayerScore("Player Two", 0)]
  {
    var qs := TwoLetterQuiz();
    game := new Game(qs);
    var _ := game.AddPlayer("Player One");
    var _ := game.AddPlayer("Player Two");
    game.StartGame();
    ScoreOfEmptyTable(qs);
    var t1, u1 := SetAnswer([], 0, 0), SetAnswer([], 0, 1);
    ScoreAfterSetAnswer([], qs, 0, 0);
    ScoreAfterSetAnswer([], qs, 0, 1);
    BothAnswer(game, [], [], 0, 1);
    assert Score(t1, qs) == 1 && Score(u1, qs) == 0;
    first := game.GetResults();
    assert first[0] == PlayerScore("Player One", 1) && first[1] == PlayerScore("Player Two", 0);
  }

  /** "Player One" and then "Player Two", the only players, answer the current question. */
  method BothAnswer(game: Game, t: Table, u: Table, a: int, b: int)
    requires game.Valid() && game.CurrentQuestion().Some?
    requires game.submittedAnswers == [PlayerAnswers("Player One", t), PlayerAnswers("Player Two", u)]
    modifies game
    ensures game.Valid()
    ensures game.currentQuestionIndex == old(game.currentQuestionIndex)
    ensures game.submittedAnswers
            == [PlayerAnswers("Player One", SetAnswer(t, game.currentQuestionIndex, a)),
                PlayerAnswers("Player Two", SetAnswer(u, game.currentQuestionIndex, b))]
  {
    assert game.submittedAnswers[0] in game.submittedAnswers && game.submittedAnswers[1] in game.submittedAnswers;
    Answer(game, "Player One", 0, a);
    Answer(game, "Player Two", 1, b);
  }
  /** A submission by the player in row `p` while a question is current is accepted and
      stores the answer in that row only. */
  method Answer(game: Game, name: string, p: nat, answerIndex: int)
    requires game.Valid() && p < |game.submittedAnswers| && game.submittedAnswers[p].name == name
    requires game.CurrentQuestion().Some?
    modifies game
    ensures game.Valid()
    ensures game.currentQuestionIndex == old(game.currentQuestionIndex) && game.playerNames == old(game.playerNames)
    ensures game.submittedAnswers
            == old(game.submittedAnswers)[p := PlayerAnswers(name, SetAnswer(old(game.submittedAnswers)[p].table, game.currentQuestionIndex, answerIndex))]
  {
    assert HasPlayer(game.submittedAnswers, name);
    assert game.submittedAnswers[p] in game.submittedAnswers;
    var r := game.SubmitAnswer(Some(name), answerIndex);
    assert r.Ok? && r.value;
  }

  /** Before the end there is no winner; at the end the one right answer beats none. */
  method WinnerIsPlayerWithHighestScoreWhenGameIsOver() returns (early: Result<Option<string>>, winner: Result<Option<string>>, over: bool)
    ensures early == Ok(None) && over && winner == Ok(Some("Player One"))
  {
    var game, first := FirstQuestionOneRightOneWrong();
    early := game.Winner();
    game.NextQuestion();
    game.NextQuestion();
    over := game.IsGameOver();
    ScoreOfEmptyTable(game.questions);
    ScoreAfterSetAnswer([], game.questions, 0, 0);
    ScoreAfterSetAnswer([], game.questions, 0, 1);
    var rows := game.GetResults();
    assert rows[0].score == 1 && rows[1].score == 0;
    winner := game.Winner();
  }

  /** The two-question game is over after exactly two `NextQuestion`s. */
  method GameIsOverAfterLastQuestion() returns (atStart: bool, afterOne: bool, afterTwo: bool)
    ensures !atStart && !afterOne && afterTwo
  {
    var game := new Game(TwoLetterQuiz());
    game.StartGame();
    atStart := game.IsGameOver();
    game.NextQuestion();
    afterOne := game.IsGameOver();
    game.NextQuestion();
    afterTwo := game.IsGameOver();
  }

  /** A game started and moved on `k` times is over exactly when `k` has reached the number
      of questions; the players were shown each question in turn and then null. */
  method PlayRounds(questions: seq<Question>, k: nat) returns (over: bool, announced: seq<Option<Question>>)
    ensures over <==> k >= |questions|
    ensures |announced| == k + 1
    ensures forall i | 0 <= i <= k :: announced[i] == if i < |questions| then Some(questions[i]) else None
  {
    var game := new Game(questions);
    game.StartGame();
    var i := 0;
    while i < k
      invariant i <= k && game.Valid() && game.questions == questions && game.currentQuestionIndex == i
      invariant |game.announced| == i + 1
      invariant forall j | 0 <= j <= i :: game.announced[j] == if j < |questions| then Some(questions[j]) else None
    {
      game.NextQuestion();
      i := i + 1;
    }
    over := game.IsGameOver();
    announced := game.announced;
  }

  /** A lone player answers the first question right and skips the second: the score stays 1. */
  method FailingToAnswerResultsInNoScore() returns (scores: seq<nat>, over: bool)
    ensures scores == [1, 1, 1] && over
  {
    var qs := TwoLetterQuiz();
    var game := new Game(qs);
    var _ := game.AddPlayer("Player");
    game.StartGame();
    ScoreOfEmptyTable(qs);
    ScoreAfterSetAnswer([], qs, 0, 0);
    Answer(game, "Player", 0, 0);
    var rows := game.GetResults();
    scores := [rows[0].score];
    game.NextQuestion();
    rows := game.GetResults();
    scores := scores + [rows[0].score];
    game.NextQuestion();
    over := game.IsGameOver();
    rows := game.GetResults();
    scores := scores + [rows[0].score];
  }

  /** A player who has not joined cannot answer; once joined, the same call is accepted. */
  method PlayerCannotPlayWithoutFirstJoiningGame() returns (before: Result<bool>, after: Result<bool>)
    ensures before == Err(KeyNotFound) && after == Ok(true)
  {
    var game := new Game(TwoLetterQuiz());
    game.StartGame();
    before := game.SubmitAnswer(Some("Player"), 0);
    var _ := game.AddPlayer("Player");
    assert game.submittedAnswers[0].name == "Player";
    after := game.SubmitAnswer(Some("Player"), 0);
    assert after.Ok? && after.value;
  }

  /** After leaving, a player's answers are refused. */
  method PlayerCannotPlayAfterLeavingGame() returns (r: Result<bool>)
    ensures r == Err(KeyNotFound)
  {
    var game := new Game(TwoLetterQuiz());
    var _ := game.AddPlayer("Player");
    game.StartGame();
    Answer(game, "Player", 0, 0);
    game.NextQuestion();
    game.RemovePlayer("Player");
    r := game.SubmitAnswer(Some("Player"), 0);
  }

  /** Once the game is over, a submission is refused without error. */
  method PlayerCannotSubmitAnswerWhenGameIsOver() returns (during: Result<bool>, after: Result<bool>)
    ensures during == Ok(true) && after == Ok(false)
  {
    var game := new Game(TwoLetterQuiz());
    var _ := game.AddPlayer("Player");
    game.StartGame();
    assert game.submittedAnswers[0].name == "Player";
    during := game.SubmitAnswer(Some("Player"), 0);
    assert during.Ok? && during.value;
    game.NextQuestion();
    game.NextQuestion();
    after := game.SubmitAnswer(Some("Player"), 0);
  }

  /** A player who lets the first question pass and answers the second one right: the game
      credits that answer, where the positional count of the same table gives nothing. */
  method SkippedQuestionStillScores() returns (score: nat, positional: nat)
    ensures score == 1 && positional == 0
  {
    var qs := TwoLetterQuiz();
    var game := new Game(qs);
    var _ := game.AddPlayer("Player");
    game.StartGame();
    game.NextQuestion();
    Answer(game, "Player", 0, 1);
    game.NextQuestion();
    var t := SetAnswer([], 1, 1);
    ScoreOfEmptyTable(qs);
    ScoreAfterSetAnswer([], qs, 1, 1);
    var rows := game.GetResults();
    score := rows[0].score;
    assert t == [Entry(1, 1)];
    positional := PositionalScore(game.submittedAnswers[0].table, qs);
    assert seq(1, i requires 0 <= i < 1 => t[i].answer == CorrectAnswers(qs)[i]) == [false];
  }
}
