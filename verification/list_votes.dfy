/** The `onVote` handlers of the three list pages (Materials, MyMaterials,
    Profile) all map over their list with an object spread: the entry with
    the voted id gets the reported up-vote count and one more `voted` entry. */
module ListVotes {
  import opened Types
  import MaterialDetail

  /** `r` is `list` with the vote recorded: same length, every entry with
      another id untouched, and every entry with the id carrying the
      reported up-vote count and one more `voted` entry, `voter`, at the
      end, its other fields (down-votes included) unchanged. */
  predicate VoteRecorded(list: seq<Material>, r: seq<Material>, materialId: string, newVoteCount: int, voter: string) {
    && |r| == |list|
    && (forall i :: 0 <= i < |list| && list[i].id != materialId ==> r[i] == list[i])
    && (forall i :: 0 <= i < |list| && list[i].id == materialId ==>
          && r[i].upvotes == newVoteCount
          && r[i].downvotes == list[i].downvotes
          && r[i].voted == list[i].voted + [voter]
          && r[i].(upvotes := list[i].upvotes, voted := list[i].voted) == list[i])
  }

  /** `list.map(m => m._id === materialId ? {...m, upvotes: newVoteCount,
      voted: [...m.voted, voter]} : m)`. */
  function ApplyListVote(list: seq<Material>, materialId: string, newVoteCount: int, voter: string)
    : (r: seq<Material>)
    ensures VoteRecorded(list, r, materialId, newVoteCount, voter)
  {
    if list == [] then []
    else
      var m := list[0];
      [if m.id == materialId then m.(upvotes := newVoteCount, voted := m.voted + [voter]) else m]
      + ApplyListVote(list[1..], materialId, newVoteCount, voter)
  }

  /** On an updated entry the balance moves by the change in up-votes, less
      the one appended id: only a report of exactly one more up-vote keeps it. */
  lemma ListVoteBalance(list: seq<Material>, materialId: string, newVoteCount: int, voter: string, i: int)
    requires 0 <= i < |list| && list[i].id == materialId
    ensures var r := ApplyListVote(list, materialId, newVoteCount, voter);
            Balance(r[i]) == Balance(list[i]) + (newVoteCount - list[i].upvotes) - 1
  {
  }

  /** Corrected list update: apply the detail page's vote rule, which bumps
      the counter of the given vote type, to every entry with the id. */
  function ApplyTypedListVote(list: seq<Material>, materialId: string, voteType: VoteType, voter: string)
    : (r: seq<Material>)
    ensures |r| == |list|
    ensures forall i :: 0 <= i < |list| && list[i].id != materialId ==> r[i] == list[i]
    ensures forall i :: 0 <= i < |list| && list[i].id == materialId ==>
              r[i] == MaterialDetail.RecordVote(list[i], voteType, voter)
    ensures forall i :: 0 <= i < |list| ==> Balance(r[i]) == Balance(list[i])
  {
    if list == [] then []
    else
      var m := list[0];
      [if m.id == materialId then MaterialDetail.RecordVote(m, voteType, voter) else m]
      + ApplyTypedListVote(list[1..], materialId, voteType, voter)
  }
}
