/** The polling backend (fifth backend): a module-level list of polls, appended to by the
    create handler and updated in place by the vote handler. */
module Polls {
  import opened Http
  import opened Seqs

  datatype PollOption = PollOption(labelText: string, votes: int)  // `label` is a Dafny keyword

  datatype Poll = Poll(id: string, question: string, options: map<string, PollOption>)

  function PollIds(polls: seq<Poll>): (ids: seq<string>)
    ensures |ids| == |polls|
    ensures forall i :: 0 <= i < |polls| ==> ids[i] == polls[i].id
  {
    seq(|polls|, i requires 0 <= i < |polls| => polls[i].id)
  }

  /** `{opt: PollOption(label=opt) for opt in payload.options}`: one key per distinct text. */
  function OptionsFrom(texts: seq<string>): (m: map<string, PollOption>)
    ensures m.Keys == set t | t in texts
    ensures forall k :: k in m ==> m[k] == PollOption(k, 0)
    ensures |m| <= |texts|
  {
    var m := map t | t in texts :: PollOption(t, 0);
    DistinctAtMostLength(texts);
    assert m.Keys == set t | t in texts;
    m
  }

  lemma {:induction false} DistinctAtMostLength(texts: seq<string>)
    ensures |set t | t in texts| <= |texts|
  {
    if texts != [] {
      DistinctAtMostLength(texts[1..]);
      assert (set t | t in texts) == (set t | t in texts[1..]) + {texts[0]};
    }
  }

  /** Repeated texts collapse into one option, so a poll accepted with two texts can offer a
      single choice. */
  lemma RepeatedOptionsCollapse()
    ensures |OptionsFrom(["Да", "Да"])| == 1
  {
    assert (set t | t in ["Да", "Да"]) == {"Да"};
  }

  /** get_latest_poll on a list of polls. */
  function LatestOf(polls: seq<Poll>): (r: Result<Poll>)
    ensures r.Err? <==> polls == []
    ensures r.Err? ==> r.status == NotFound
    ensures r.Ok? ==> r.value == polls[|polls| - 1]
  {
    if polls == [] then Err(NotFound) else Ok(polls[|polls| - 1])
  }

  /** The list after vote_poll: one more vote for `key` in the first poll with the id, when
      that poll has the key. */
  function Voted(polls: seq<Poll>, id: string, key: string): (r: seq<Poll>)
    ensures |r| == |polls| && PollIds(r) == PollIds(polls)
    ensures id !in PollIds(polls) ==> r == polls
  {
    match IndexOf(PollIds(polls), id)
    case None => polls
    case Some(i) =>
      var p := polls[i];
      if key in p.options then
        polls[i := p.(options := p.options[key := p.options[key].(votes := p.options[key].votes + 1)])]
      else polls
  }

  /** What vote_poll answers. */
  function VoteReply(polls: seq<Poll>, id: string, key: string): (r: Result<Poll>)
    ensures r.Err? <==> id !in PollIds(polls) || key !in polls[IndexOf(PollIds(polls), id).value].options
    ensures r.Err? ==> r.status == NotFound
    ensures r.Ok? ==> r.value == Voted(polls, id, key)[IndexOf(PollIds(polls), id).value]
  {
    match IndexOf(PollIds(polls), id)
    case None => Err(NotFound)
    case Some(i) => if key in polls[i].options then Ok(Voted(polls, id, key)[i]) else Err(NotFound)
  }

  /** A vote adds exactly one to the chosen option of the chosen poll; every other option,
      every question and every other poll stay as they were, and a refused vote changes
      nothing. */
  lemma VoteCountsOnce(polls: seq<Poll>, id: string, key: string)
    ensures var r := Voted(polls, id, key);
      && |r| == |polls| && PollIds(r) == PollIds(polls)
      && (VoteReply(polls, id, key).Err? ==> r == polls)
      && forall i :: 0 <= i < |polls| ==>
           && r[i].question == polls[i].question
           && r[i].options.Keys == polls[i].options.Keys
           && forall k :: k in polls[i].options ==>
                && r[i].options[k].labelText == polls[i].options[k].labelText
                && r[i].options[k].votes == polls[i].options[k].votes
                     + (if IndexOf(PollIds(polls), id) == Some(i) && k == key then 1 else 0)
  {
  }

  /** The module-level `polls` list. */
  class PollStore {
    var polls: seq<Poll>

    constructor ()
      ensures polls == []
    {
      polls := [];
    }

    /** get_latest_poll. */
    method Latest() returns (r: Result<Poll>)
      ensures r == LatestOf(polls)
    {
      if polls == [] {
        return Err(NotFound);
      }
      return Ok(polls[|polls| - 1]);
    }

    /** create_poll, with the fresh uuid4 supplied as `id`. */
    method Create(id: string, question: string, options: seq<string>) returns (r: Result<Poll>)
      requires id !in PollIds(polls)
      modifies this
      ensures r.Err? <==> |options| < 2
      ensures r.Err? ==> r.status == BadRequest && polls == old(polls)
      ensures r.Ok? ==> r.value == Poll(id, question, OptionsFrom(options)) && polls == old(polls) + [r.value]
      ensures r.Ok? ==> LatestOf(polls) == r
    {
      if |options| < 2 {
        return Err(BadRequest);
      }
      var poll := Poll(id, question, OptionsFrom(options));
      polls := polls + [poll];
      r := Ok(poll);
    }

    /** vote_poll: the loop stops at the first poll with the id. */
    method Vote(id: string, key: string) returns (r: Result<Poll>)
      modifies this
      ensures r == VoteReply(old(polls), id, key)
      ensures polls == Voted(old(polls), id, key)
      ensures r.Ok? ==> r.value == polls[IndexOf(PollIds(old(polls)), id).value]
    {
      var i := 0;
      while i < |polls|
        invariant 0 <= i <= |polls| && polls == old(polls)
        invariant forall j :: 0 <= j < i ==> polls[j].id != id
      {
        var poll := polls[i];
        if poll.id == id {
          if key !in poll.options {
            return Err(NotFound);
          }
          var option := poll.options[key];
          var updated := poll.(options := poll.options[key := option.(votes := option.votes + 1)]);
          polls := polls[i := updated];
          return Ok(updated);
        }
        i := i + 1;
      }
      return Err(NotFound);
    }
  }
}
