/** The profile step after sign-up: a profile picture, chosen from disk or from a
    gallery of default images, and a location that must not be blank. */
module Profile {
  import opened Text

  /** The gallery of default pictures, in display order. */
  const DefaultImages: seq<string> := [
    "https://picsum.photos/192?random=1",
    "https://picsum.photos/192?random=2",
    "https://picsum.photos/192?random=3",
    "https://picsum.photos/192?random=4",
    "https://picsum.photos/192?random=5",
    "https://picsum.photos/192?random=6",
    "https://picsum.photos/192?random=7",
    "https://picsum.photos/192?random=8"
  ]

  const LocationError := "Please enter a valid location."

  /** Every character is white space (the empty string included). */
  predicate Blank(s: string) {
    forall i :: 0 <= i < |s| ==> IsWhitespace(s[i])
  }

  /** `s` without its leading white space. */
  function TrimStart(s: string): (r: string)
    ensures |r| <= |s| && r == s[|s| - |r|..]
    ensures Blank(s[..|s| - |r|])
    ensures r == [] || !IsWhitespace(r[0])
  {
    if s == [] || !IsWhitespace(s[0]) then s
    else
      var r := TrimStart(s[1..]);
      assert s[..|s| - |r|] == [s[0]] + s[1..][..|s[1..]| - |r|];
      r
  }

  /** `s` without its trailing white space. */
  function TrimEnd(s: string): (r: string)
    ensures |r| <= |s| && r == s[..|r|]
    ensures Blank(s[|r|..])
    ensures r == [] || !IsWhitespace(r[|r| - 1])
  {
    if s == [] || !IsWhitespace(s[|s| - 1]) then s
    else
      var r := TrimEnd(s[..|s| - 1]);
      assert s[|r|..] == s[..|s| - 1][|r|..] + [s[|s| - 1]];
      r
  }

  /** `String.prototype.trim`: white space removed at both ends. */
  function Trim(s: string): (r: string)
    ensures r == [] || (!IsWhitespace(r[0]) && !IsWhitespace(r[|r| - 1]))
    ensures exists i :: CutAt(s, r, i)
  {
    var t := TrimStart(s);
    var u := TrimEnd(t);
    assert u == [] || u[0] == t[0];
    CutOfCut(s, t, u);
    u
  }

  /** `r` is the part of `s` from position `i` on, with only white space around it. */
  predicate CutAt(s: string, r: string, i: int) {
    0 <= i && i + |r| <= |s| && r == s[i..i + |r|] && Blank(s[..i]) && Blank(s[i + |r|..])
  }

  /** A suffix of `s` with white space before it, cut down to a prefix with white
      space after it, is a middle part of `s`. */
  lemma CutOfCut(s: string, t: string, u: string)
    requires |t| <= |s| && t == s[|s| - |t|..] && Blank(s[..|s| - |t|])
    requires |u| <= |t| && u == t[..|u|] && Blank(t[|u|..])
    ensures CutAt(s, u, |s| - |t|)
  {
    var i := |s| - |t|;
    assert s[i..][..|u|] == s[i..i + |u|];
    assert s[i + |u|..] == t[|u|..];
  }

  /** Removing the leading white space leaves nothing exactly on a blank string. */
  lemma TrimStartEmpty(s: string)
    ensures TrimStart(s) == [] <==> Blank(s)
  {
    var r := TrimStart(s);
    if r == [] {
      assert s[..|s| - |r|] == s;
    }
  }

  /** The trimmed string is empty exactly when the string is blank. */
  lemma TrimEmptyIffBlank(s: string)
    ensures Trim(s) == "" <==> Blank(s)
  {
    var t := TrimStart(s);
    var r := TrimEnd(t);
    TrimStartEmpty(s);
    if r == [] {
      assert t[|r|..] == t;
    } else if t != [] {
      assert t[0] == r[0];
    }
  }

  /** The message the location submit shows: an error for a blank location, and
      none otherwise. */
  function LocationSubmitError(location: string): (e: string)
    ensures e == LocationError <==> Blank(location)
    ensures e == "" <==> !Blank(location)
  {
    TrimEmptyIffBlank(location);
    if Trim(location) == "" then LocationError else ""
  }

  class ProfileSetup {
    var image: string
    var location: string
    var error: string
    var showDefaultImages: bool

    /** The step as first shown: the built-in placeholder picture, no location, no
        error, the gallery closed. */
    constructor (initialImage: string)
      ensures image == initialImage && location == "" && error == "" && !showDefaultImages
    {
      image := initialImage;
      location := "";
      error := "";
      showDefaultImages := false;
    }

    /** Typing in the location input. */
    method SetLocation(value: string)
      modifies this`location
      ensures location == value
    {
      location := value;
    }

    /** Submitting the location sets the error message and changes nothing else. */
    method HandleLocationSubmit()
      modifies this`error
      ensures Blank(location) ==> error == LocationError
      ensures !Blank(location) ==> error == ""
    {
      if Trim(location) == "" {
        TrimEmptyIffBlank(location);
        error := LocationError;
        return;
      }
      TrimEmptyIffBlank(location);
      error := "";
    }

    /** A key in the location input: Enter submits, any other key does nothing. */
    method HandleLocationKeyDown(key: string)
      modifies this`error
      ensures key == "Enter" ==> error == LocationSubmitError(location)
      ensures key != "Enter" ==> error == old(error)
    {
      if key == "Enter" {
        HandleLocationSubmit();
      }
    }

    /** The "choose one" button opens the gallery. */
    method OpenGallery()
      modifies this`showDefaultImages
      ensures showDefaultImages
    {
      showDefaultImages := true;
    }

    /** Picking the `i`-th default picture in the open gallery takes it and closes
        the gallery. */
    method SelectDefaultImage(i: nat)
      requires showDefaultImages && i < |DefaultImages|
      modifies this`image, this`showDefaultImages
      ensures image == DefaultImages[i] && !showDefaultImages
    {
      image := DefaultImages[i];
      showDefaultImages := false;
    }

    /** The gallery's Close button. */
    method CloseGallery()
      requires showDefaultImages
      modifies this`showDefaultImages
      ensures !showDefaultImages
    {
      showDefaultImages := false;
    }

    /** A change of the file input. The empty frame is the contract: the profile
        state does not change, with or without a file. The result only says whether a
        read of the file starts; its completion is not part of this model. */
    method HandleImageChange(hasFile: bool) returns (readStarted: bool)
      ensures readStarted <==> hasFile
    {
      readStarted := hasFile;
    }
  }

  /** Submitting a location of spaces and tabs is refused, and typing a name fixes it. */
  method BlankThenNamedLocation() returns (p: ProfileSetup)
    ensures p.error == "" && p.location == "Pune"
  {
    p := new ProfileSetup("placeholder");
    p.SetLocation(" \t ");
    assert Blank(p.location);
    p.HandleLocationSubmit();
    assert p.error == LocationError;
    p.SetLocation("Pune");
    assert !IsWhitespace(p.location[0]);
    p.HandleLocationKeyDown("Enter");
  }
}
