/**
 * When the profile page shows the card of contributions to other people's
 * repositories, and whether it goes before the user's own projects.
 */
module ContributionsCard {
  import opened Wrappers
  import opened Types

  /** The fewest outside repositories worth a card. */
  const MinExternalRepos: nat := 2

  /** `shouldShowContributions`: there is data, and it names enough outside repositories. */
  predicate ShouldShowContributions(contributions: Option<ContributionsData>, ownRepoCount: int) {
    if contributions.None? then false
    else if |contributions.value.topRepos| < MinExternalRepos then false
    else true
  }

  /** `shouldShowContributionsFirst`: more outside repositories than own ones. */
  predicate ShouldShowContributionsFirst(contributions: ContributionsData, ownRepoCount: int) {
    |contributions.topRepos| > ownRepoCount
  }

  /** The card shows exactly when data is present and lists at least two repositories. */
  lemma ShowContributionsSpec(contributions: Option<ContributionsData>, ownRepoCount: int)
    ensures contributions.None? ==> !ShouldShowContributions(contributions, ownRepoCount)
    ensures ShouldShowContributions(contributions, ownRepoCount)
      <==> contributions.Some? && |contributions.value.topRepos| >= 2
  {
  }

  /** The number of the user's own repositories plays no part in showing the card. */
  lemma ShowIgnoresOwnCount(contributions: Option<ContributionsData>, own1: int, own2: int)
    ensures ShouldShowContributions(contributions, own1) == ShouldShowContributions(contributions, own2)
  {
  }

  /** Whenever the user has a repository of their own, putting the card first implies showing it. */
  lemma FirstImpliesShown(contributions: ContributionsData, ownRepoCount: int)
    requires ownRepoCount >= 1
    ensures ShouldShowContributionsFirst(contributions, ownRepoCount) ==> ShouldShowContributions(Some(contributions), ownRepoCount)
  {
  }

  /** Putting the card first depends on the two counts alone and on nothing else in the data. */
  lemma FirstSpec(contributions: ContributionsData, ownRepoCount: int)
    ensures ShouldShowContributionsFirst(contributions, ownRepoCount) <==> |contributions.topRepos| > ownRepoCount
    ensures forall other: ContributionsData | |other.topRepos| == |contributions.topRepos| ::
      ShouldShowContributionsFirst(other, ownRepoCount) == ShouldShowContributionsFirst(contributions, ownRepoCount)
  {
  }
}
