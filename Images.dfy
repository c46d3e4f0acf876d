/**
 * Choosing the boot image: an explicit `IMAGE_OCID` wins; otherwise the
 * provider's Ubuntu image list (newest first) is scanned for an ARM build of
 * 22.04, and only if there is none, of 24.04.
 */
module Images {
  import opened Options
  import opened Text

  /** One entry of the provider's image listing; the display name may be absent. */
  datatype Image = Image(id: string, displayName: Option<string>)

  /** The preferred release, and the one tried when it is missing. */
  const PrimaryVersion: string := "22.04"
  const SecondaryVersion: string := "24.04"

  /** The lower-cased display name, with an absent name read as "". */
  function LowerName(img: Image): string {
    Lower(img.displayName.GetOr(""))
  }

  /** The test `pick` applies to each image: the version and "aarch64" or "arm" occur in the lower-cased name. */
  predicate Matches(img: Image, ver: string) {
    var name := LowerName(img);
    Contains(name, ver) && (Contains(name, "aarch64") || Contains(name, "arm"))
  }

  /**
   * The test ignores ASCII case in the display name: the version and
   * "aarch64" or "arm" occur in it in any mix of upper and lower case.
   */
  lemma MatchesIgnoringCase(img: Image, ver: string)
    requires NoUpper(ver)
    ensures var name := img.displayName.GetOr("");
      Matches(img, ver) <==>
        ContainsIgnoringCase(name, ver)
        && (ContainsIgnoringCase(name, "aarch64") || ContainsIgnoringCase(name, "arm"))
  {
    var name := img.displayName.GetOr("");
    ContainsLower(name, ver);
    ContainsLower(name, "aarch64");
    ContainsLower(name, "arm");
  }

  /** Image `i` matches and no earlier image does. */
  predicate IsFirstMatch(imgs: seq<Image>, ver: string, i: int) {
    0 <= i < |imgs| && Matches(imgs[i], ver) && forall j :: 0 <= j < i ==> !Matches(imgs[j], ver)
  }

  /** The id of the first matching image in list order, or `None` when no image matches. */
  function FirstMatch(imgs: seq<Image>, ver: string): (r: Option<string>)
    ensures r.None? <==> forall i :: 0 <= i < |imgs| ==> !Matches(imgs[i], ver)
    ensures r.Some? ==> exists i :: IsFirstMatch(imgs, ver, i) && r.value == imgs[i].id
  {
    if imgs == [] then None
    else if Matches(imgs[0], ver) then
      assert IsFirstMatch(imgs, ver, 0);
      Some(imgs[0].id)
    else
      var r := FirstMatch(imgs[1..], ver);
      assert forall i :: 0 < i < |imgs| ==> imgs[i] == imgs[1..][i - 1];
      if r.Some? then
        var i :| IsFirstMatch(imgs[1..], ver, i) && r.value == imgs[1..][i].id;
        assert IsFirstMatch(imgs, ver, i + 1);
        r
      else r
  }

  /** The first match is the unique image that matches before any other. */
  lemma FirstMatchAt(imgs: seq<Image>, ver: string, i: int)
    requires IsFirstMatch(imgs, ver, i)
    ensures FirstMatch(imgs, ver) == Some(imgs[i].id)
  {
    var r := FirstMatch(imgs, ver);
    var k :| IsFirstMatch(imgs, ver, k) && r.value == imgs[k].id;
    assert k == i;
  }

  /** The inner `pick`: scans the list in order and returns the id of the first matching image. */
  method Pick(imgs: seq<Image>, ver: string) returns (r: Option<string>)
    ensures r == FirstMatch(imgs, ver)
  {
    for i := 0 to |imgs|
      invariant forall j :: 0 <= j < i ==> !Matches(imgs[j], ver)
    {
      var name := Lower(imgs[i].displayName.GetOr(""));
      if Contains(name, ver) && (Contains(name, "aarch64") || Contains(name, "arm")) {
        FirstMatchAt(imgs, ver, i);
        return Some(imgs[i].id);
      }
    }
    return None;
  }

  /**
   * `pick("22.04") or pick("24.04")`: Python's `or` moves on to 24.04 whenever
   * the 22.04 result is falsy, that is absent or an empty id.
   */
  function PreferredImage(imgs: seq<Image>): Option<string> {
    var primary := FirstMatch(imgs, PrimaryVersion);
    if Truthy(primary) then primary else FirstMatch(imgs, SecondaryVersion)
  }

  /** `pick_latest_ubuntu_arm_image` on an already fetched listing. */
  method PickLatestUbuntuArmImage(imgs: seq<Image>) returns (r: Option<string>)
    ensures r == PreferredImage(imgs)
  {
    r := Pick(imgs, PrimaryVersion);
    if !(r.Some? && r.value != "") {
      r := Pick(imgs, SecondaryVersion);
    }
  }

  /** The first ARM 22.04 image is chosen, whatever 24.04 images come before it. */
  lemma PrimaryWins(imgs: seq<Image>, i: int)
    requires IsFirstMatch(imgs, PrimaryVersion, i) && imgs[i].id != ""
    ensures PreferredImage(imgs) == Some(imgs[i].id)
  {
    FirstMatchAt(imgs, PrimaryVersion, i);
  }

  /** With no ARM 22.04 image at all, the first ARM 24.04 image is chosen. */
  lemma SecondaryFallback(imgs: seq<Image>, i: int)
    requires forall j :: 0 <= j < |imgs| ==> !Matches(imgs[j], PrimaryVersion)
    requires IsFirstMatch(imgs, SecondaryVersion, i)
    ensures PreferredImage(imgs) == Some(imgs[i].id)
  {
    FirstMatchAt(imgs, SecondaryVersion, i);
  }

  /** A 22.04 match whose id is empty counts as no match, and 24.04 is tried. */
  lemma EmptyPrimaryIdFallsThrough(imgs: seq<Image>, i: int)
    requires IsFirstMatch(imgs, PrimaryVersion, i) && imgs[i].id == ""
    ensures PreferredImage(imgs) == FirstMatch(imgs, SecondaryVersion)
  {
    FirstMatchAt(imgs, PrimaryVersion, i);
  }

  /** Any chosen image is one of the listed ones that matches a version. */
  lemma PreferredImageMatches(imgs: seq<Image>)
    ensures var r := PreferredImage(imgs);
      r.Some? ==> exists i :: 0 <= i < |imgs| && r.value == imgs[i].id
                          && (Matches(imgs[i], PrimaryVersion) || Matches(imgs[i], SecondaryVersion))
    ensures (forall i :: 0 <= i < |imgs| ==> !Matches(imgs[i], PrimaryVersion) && !Matches(imgs[i], SecondaryVersion))
            ==> PreferredImage(imgs).None?
  {
    var r := PreferredImage(imgs);
    var primary := FirstMatch(imgs, PrimaryVersion);
    if r.Some? {
      if Truthy(primary) {
        var i :| IsFirstMatch(imgs, PrimaryVersion, i) && primary.value == imgs[i].id;
      } else {
        var i :| IsFirstMatch(imgs, SecondaryVersion, i) && r.value == imgs[i].id;
      }
    }
  }

  /**
   * The image id the claim uses: the stripped `IMAGE_OCID` when it is not
   * empty, otherwise the preferred listed image (the listing is only consulted then).
   */
  function ResolveImage(overrideEnv: Option<string>, imgs: seq<Image>): (r: Option<string>)
    ensures var o := Strip(overrideEnv.GetOr(""));
      && (o != "" ==> r == Some(o))
      && (o == "" && r.Some? ==> exists i :: 0 <= i < |imgs| && r.value == imgs[i].id
                                         && (Matches(imgs[i], PrimaryVersion) || Matches(imgs[i], SecondaryVersion)))
  {
    var o := Strip(overrideEnv.GetOr(""));
    if o != "" then Some(o)
    else
      PreferredImageMatches(imgs);
      PreferredImage(imgs)
  }

  /**
   * `IMAGE_OCID or pick_latest_ubuntu_arm_image(...)`: a non-empty stripped
   * override is used as given, and otherwise the preferred listed image is,
   * whatever it is (absent included).
   */
  lemma ResolveImageChoice(overrideEnv: Option<string>, imgs: seq<Image>)
    ensures var o := Strip(overrideEnv.GetOr(""));
      ResolveImage(overrideEnv, imgs) == if o != "" then Some(o) else PreferredImage(imgs)
  {
  }

  /**
   * A listing like the provider's, newest first: a 24.04 ARM build, then a
   * 22.04 one, then a 20.04 one. The 22.04 build wins over the newer 24.04
   * build listed before it.
   */
  lemma ExampleListing()
    ensures PreferredImage([
      Image("img-1", Some("x-24.04-arm-1")),
      Image("img-2", Some("x-22.04-aarch64-2")),
      Image("img-3", Some("x-20.04-aarch64-3"))]) == Some("img-2")
  {
    var imgs := [
      Image("img-1", Some("x-24.04-arm-1")),
      Image("img-2", Some("x-22.04-aarch64-2")),
      Image("img-3", Some("x-20.04-aarch64-3"))];
    var newer := LowerName(imgs[0]);
    assert newer == "x-24.04-arm-1";
    forall i | 0 <= i <= |newer|
      ensures !OccursAt(newer, PrimaryVersion, i)
    {
      if i == 2 {
        assert newer[i + 1] != PrimaryVersion[1];
      } else if i + |PrimaryVersion| <= |newer| {
        assert newer[i] != PrimaryVersion[0];
      }
    }
    assert !Matches(imgs[0], PrimaryVersion);
    var name := LowerName(imgs[1]);
    assert name == "x-22.04-aarch64-2";
    assert OccursAt(name, PrimaryVersion, 2);
    assert OccursAt(name, "aarch64", 8);
    assert IsFirstMatch(imgs, PrimaryVersion, 1);
    PrimaryWins(imgs, 1);
  }
}
