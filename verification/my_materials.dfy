/** src/pages/MyMaterials.tsx: the signed-in user's own uploads. */
module MyMaterials {
  import opened Types
  import opened Outcomes
  import Seqs
  import ListVotes
  import MaterialCard
  import MaterialDetail

  /** `handleVote`: the card reports a new up-vote count; the entry with the
      id takes it and appends the user's id (or '' without a user). */
  function HandleVote(materials: seq<Material>, materialId: string, newVoteCount: int, user: Option<User>)
    : (r: seq<Material>)
    ensures ListVotes.VoteRecorded(materials, r, materialId, newVoteCount, VoterId(user))
  {
    ListVotes.ApplyListVote(materials, materialId, newVoteCount, VoterId(user))
  }

  /** A confirmed down-vote made from a card on this page: the card reports
      the unchanged up-vote count, so the entry's down-votes stay as they
      were and its balance drops by one, while the detail page's rule would
      have counted the down-vote. */
  lemma ListDownvoteIsLost(materials: seq<Material>, i: int, user: Option<User>)
    requires 0 <= i < |materials|
    requires !MaterialCard.HasUserVoted(user, materials[i])
    ensures var m := materials[i];
            var (attempt, reported) := MaterialCard.HandleVote(true, user, m, Downvote, true);
            attempt == Done &&
            var r := HandleVote(materials, m.id, reported.value, user);
            && r[i].downvotes == m.downvotes
            && Balance(r[i]) == Balance(m) - 1
            && MaterialDetail.RecordVote(m, Downvote, VoterId(user)).downvotes == m.downvotes + 1
  {
  }

  /** `handleDelete`: once the service call returns, every entry with the id
      is dropped; if it throws the list is kept. */
  function HandleDelete(materials: seq<Material>, materialId: string, callSucceeds: bool): (r: seq<Material>)
    ensures !callSucceeds ==> r == materials
    ensures callSucceeds ==> forall i :: 0 <= i < |r| ==> r[i].id != materialId
    ensures callSucceeds ==> Seqs.IsSubseq(r, materials)
    ensures callSucceeds ==> forall m: Material :: m.id != materialId ==> multiset(r)[m] == multiset(materials)[m]
  {
    if callSucceeds then
      Seqs.FilterKeepsOrder((m: Material) => m.id != materialId, materials);
      Seqs.Filter((m: Material) => m.id != materialId, materials)
    else materials
  }
}
