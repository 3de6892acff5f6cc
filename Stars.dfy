/**
 * The favourite star in front of every story: an `<i>` element whose class list starts as
 * "far fa-star" (an outlined star).  A click asks for the story to be added to the favourites
 * when the star is outlined (`far`) and removed otherwise, then toggles `far` and `fas`.
 * A class list is a set of class names, as `hasClass` and `toggleClass` see it.
 */
module Stars {

  const Outlined: string := "far"
  const Solid: string := "fas"
  const StarIcon: string := "fa-star"

  /** The class list every story's star is rendered with. */
  const InitialStar: set<string> := {Outlined, StarIcon}

  /** `toggleClass(name)`: the class is removed when present, added otherwise. */
  function ToggleClass(classes: set<string>, name: string): (r: set<string>)
    ensures name in r <==> name !in classes
    ensures forall c :: c != name ==> (c in r <==> c in classes)
  {
    if name in classes then classes - {name} else classes + {name}
  }

  /**
   * `toggleClass("far fas")`: each of the two names is toggled, `far` first, so both flip
   * and every other class stays as it was.
   */
  function ToggleStar(classes: set<string>): (r: set<string>)
    ensures Outlined in r <==> Outlined !in classes
    ensures Solid in r <==> Solid !in classes
    ensures forall c :: c != Outlined && c != Solid ==> (c in r <==> c in classes)
  {
    assert Outlined != Solid;
    ToggleClass(ToggleClass(classes, Outlined), Solid)
  }

  /** A star shows exactly one style, outlined or solid, and is still a star. */
  predicate OneStyle(classes: set<string>)
  {
    StarIcon in classes && (Outlined in classes <==> Solid !in classes)
  }

  /** What the click handler asks for; the argument is the clicked element's id. */
  datatype FavoriteCall = AddFavorite(storyId: string) | RemoveFavorite(storyId: string)

  /** The branch of the click handler: add exactly when the star is outlined. */
  function FavoriteCallFor(classes: set<string>, targetId: string): (call: FavoriteCall)
    ensures call.AddFavorite? <==> Outlined in classes
    ensures call.storyId == targetId
  {
    if Outlined in classes then AddFavorite(targetId) else RemoveFavorite(targetId)
  }

  /** Two clicks give back the class list the star had. */
  lemma ToggleStarTwice(classes: set<string>)
    ensures ToggleStar(ToggleStar(classes)) == classes
  {
    assert forall c :: c in ToggleStar(ToggleStar(classes)) <==> c in classes;
  }

  /** A click keeps a star showing exactly one style, swapping it. */
  lemma ToggleStarKeepsOneStyle(classes: set<string>)
    requires OneStyle(classes)
    ensures OneStyle(ToggleStar(classes))
    ensures Outlined in classes <==> Solid in ToggleStar(classes)
  {
    assert StarIcon != Outlined && StarIcon != Solid;
  }

  /** A freshly rendered star is outlined, so its first click adds the story to the favourites. */
  lemma FirstClickAdds(targetId: string)
    ensures OneStyle(InitialStar)
    ensures FavoriteCallFor(InitialStar, targetId) == AddFavorite(targetId)
    ensures ToggleStar(InitialStar) == {Solid, StarIcon}
    ensures FavoriteCallFor(ToggleStar(InitialStar), targetId) == RemoveFavorite(targetId)
  {
    assert StarIcon != Outlined && StarIcon != Solid && Outlined != Solid;
    assert forall c :: c in ToggleStar(InitialStar) <==> c in {Solid, StarIcon};
  }

  /** Clicks alternate: adding after removing after adding, and so on, whatever the classes. */
  lemma ClicksAlternate(classes: set<string>, targetId: string)
    ensures FavoriteCallFor(ToggleStar(classes), targetId).AddFavorite?
        <==> !FavoriteCallFor(classes, targetId).AddFavorite?
  {
  }
}
