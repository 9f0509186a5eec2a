/** The category-choice page of `client/src/pages/choose-categories.tsx`: its
    redirect guards, the append-only list of chosen categories and the
    submit button. */
module ChooseCategories {
  import opened Wrappers
  import Utils

  /** The signed-in user as the page sees it. */
  datatype AuthUser = AuthUser(hasNoCategories: bool)

  /** Where the page sends its visitor. */
  datatype Guard = ToLogin | ToHome | ShowPage

  function PageGuard(user: Option<AuthUser>): (r: Guard)
    ensures r == ShowPage <==> user.Some? && user.value.hasNoCategories
    ensures r == ToLogin <==> user.None?
  {
    if user.None? then ToLogin
    else if !user.value.hasNoCategories then ToHome
    else ShowPage
  }

  /** A visitor who is not signed in goes to "/login" before anything else is
      looked at; the page itself shows only to a user without categories. */
  lemma GuardOrder(user: Option<AuthUser>)
    ensures user.None? ==> PageGuard(user) == ToLogin
    ensures PageGuard(user) == ShowPage <==> user.Some? && user.value.hasNoCategories
    ensures PageGuard(user) == ToHome <==> user.Some? && !user.value.hasNoCategories
  {
  }

  /** `disabled={categories.length < 3 || categoriesMutation.isPending}`. */
  predicate SubmitEnabled(chosen: seq<string>, pending: bool)
    ensures SubmitEnabled(chosen, pending) ==> !pending && |chosen| >= 3
    ensures |chosen| < 3 ==> !SubmitEnabled(chosen, pending)
  {
    |chosen| >= 3 && !pending
  }

  predicate Distinct(xs: seq<string>)
  {
    forall i, j :: 0 <= i < j < |xs| ==> xs[i] != xs[j]
  }

  function Elements(xs: seq<string>): set<string>
  {
    set x | x in xs
  }

  lemma {:induction false} DistinctElements(xs: seq<string>)
    requires Distinct(xs)
    ensures |Elements(xs)| == |xs|
    decreases |xs|
  {
    if xs != [] {
      DistinctElements(xs[1..]);
      assert Elements(xs) == {xs[0]} + Elements(xs[1..]);
    }
  }

  lemma {:induction false} ElementsBound(xs: seq<string>)
    ensures |Elements(xs)| <= |xs|
    decreases |xs|
  {
    if xs != [] {
      ElementsBound(xs[1..]);
      assert Elements(xs) == {xs[0]} + Elements(xs[1..]);
    }
  }

  /** Categories chosen without repetition from `CATEGORIES` are never more
      than `CATEGORIES` holds. */
  lemma ChosenBound(chosen: seq<string>)
    requires Distinct(chosen)
    requires forall i :: 0 <= i < |chosen| ==> chosen[i] in Utils.Categories
    ensures |chosen| <= |Utils.Categories|
  {
    DistinctElements(chosen);
    ElementsBound(Utils.Categories);
    assert Elements(chosen) <= Elements(Utils.Categories);
    SubsetSize(Elements(chosen), Elements(Utils.Categories));
  }

  lemma {:induction false} SubsetSize(a: set<string>, b: set<string>)
    requires a <= b
    ensures |a| <= |b|
    decreases |a|
  {
    if a != {} {
      var x :| x in a;
      SubsetSize(a - {x}, b - {x});
    }
  }

  class CategoryChooser {
    /** The `categories` state. */
    var chosen: seq<string>
    /** `categoriesMutation.isPending`. */
    var pending: bool
    /** The bodies sent to `PATCH /api/users/categories`. */
    var sent: seq<seq<string>>
    var navigatedHome: bool

    /** Every choice comes from `CATEGORIES` and appears once, and every
        request carried at least three categories. */
    predicate Valid()
      reads this
    {
      Distinct(chosen) && (forall i :: 0 <= i < |chosen| ==> chosen[i] in Utils.Categories)
      && (forall i :: 0 <= i < |sent| ==> |sent[i]| >= 3)
    }

    constructor ()
      ensures Valid()
      ensures chosen == [] && !pending && sent == [] && !navigatedHome
    {
      chosen := [];
      pending := false;
      sent := [];
      navigatedHome := false;
    }

    /** A click on the button of the `k`-th category: it appends that
        category, and the button is disabled once the category is chosen. */
    method Choose(k: nat)
      requires Valid() && k < |Utils.Categories|
      modifies this
      ensures Valid()
      ensures chosen == if Utils.Categories[k] in old(chosen) then old(chosen) else old(chosen) + [Utils.Categories[k]]
      ensures |chosen| >= |old(chosen)| && chosen[..|old(chosen)|] == old(chosen)
      ensures pending == old(pending) && sent == old(sent) && navigatedHome == old(navigatedHome)
    {
      var category := Utils.Categories[k];
      if category in chosen {
        return;
      }
      chosen := chosen + [category];
      assert chosen[..|old(chosen)|] == old(chosen);
    }

    /** A click on Submit; a disabled button ignores it. */
    method Submit()
      requires Valid()
      modifies this
      ensures Valid()
      ensures SubmitEnabled(old(chosen), old(pending)) ==> sent == old(sent) + [chosen] && pending
      ensures !SubmitEnabled(old(chosen), old(pending)) ==> sent == old(sent) && pending == old(pending)
      ensures chosen == old(chosen) && navigatedHome == old(navigatedHome)
    {
      if !SubmitEnabled(chosen, pending) {
        return;
      }
      sent := sent + [chosen];
      pending := true;
    }

    /** The request settles; on success the page navigates to "/". */
    method Settle(success: bool)
      requires Valid()
      modifies this
      ensures Valid()
      ensures !pending
      ensures navigatedHome == (old(navigatedHome) || (old(pending) && success))
      ensures chosen == old(chosen) && sent == old(sent)
    {
      if pending && success {
        navigatedHome := true;
      }
      pending := false;
    }

    /** The list never outgrows `CATEGORIES`. */
    lemma Bounded()
      requires Valid()
      ensures |chosen| <= |Utils.Categories|
    {
      ChosenBound(chosen);
    }
  }
}
