/** The output file name of a video: its title with every character that may
    not appear in a file name removed, followed by ".mp3". Which characters
    are invalid is the platform's business, so the set is a parameter. */
module FileNames {

  /** The title with every character of `invalid` dropped, the others kept in
      order (`Except` over the platform's invalid file-name characters). */
  function Sanitize(title: string, invalid: set<char>): (r: string)
    ensures |r| <= |title|
    ensures forall k :: 0 <= k < |r| ==> r[k] !in invalid
  {
    if |title| == 0 then ""
    else
      var last := title[|title| - 1];
      Sanitize(title[..|title| - 1], invalid) + (if last in invalid then "" else [last])
  }

  /** The positions of `title` that hold a valid character, in increasing order. */
  function ValidPositions(title: string, invalid: set<char>): (p: seq<nat>)
    ensures forall k :: 0 <= k < |p| ==> p[k] < |title| && title[p[k]] !in invalid
    ensures forall k, l :: 0 <= k < l < |p| ==> p[k] < p[l]
    ensures forall i :: 0 <= i < |title| && title[i] !in invalid ==> i in p
  {
    if |title| == 0 then []
    else
      var rest := ValidPositions(title[..|title| - 1], invalid);
      if title[|title| - 1] in invalid then rest else rest + [|title| - 1]
  }

  /** The sanitised title is exactly the title read at its valid positions:
      a subsequence of the title that drops the invalid characters and keeps
      every other one. */
  lemma {:induction false} SanitizeKeepsValidPositions(title: string, invalid: set<char>)
    ensures |Sanitize(title, invalid)| == |ValidPositions(title, invalid)|
    ensures forall k :: 0 <= k < |Sanitize(title, invalid)| ==>
      Sanitize(title, invalid)[k] == title[ValidPositions(title, invalid)[k]]
  {
    if |title| > 0 {
      var init := title[..|title| - 1];
      SanitizeKeepsValidPositions(init, invalid);
      assert forall i :: 0 <= i < |init| ==> init[i] == title[i];
    }
  }

  /** A title with no invalid character is its own sanitisation, and only such
      a title is. */
  lemma {:induction false} SanitizeFixedPoints(title: string, invalid: set<char>)
    ensures Sanitize(title, invalid) == title <==>
      forall k :: 0 <= k < |title| ==> title[k] !in invalid
  {
    if |title| > 0 {
      var init := title[..|title| - 1];
      var last := title[|title| - 1];
      SanitizeFixedPoints(init, invalid);
      if forall k :: 0 <= k < |title| ==> title[k] !in invalid {
        assert forall k :: 0 <= k < |init| ==> init[k] == title[k];
        assert title == init + [last];
      }
    }
  }

  /** Sanitising twice changes nothing more. */
  lemma SanitizeIdempotent(title: string, invalid: set<char>)
    ensures Sanitize(Sanitize(title, invalid), invalid) == Sanitize(title, invalid)
  {
    SanitizeFixedPoints(Sanitize(title, invalid), invalid);
  }

  /** The name of the encoded file in the output directory. */
  function OutputFileName(title: string, invalid: set<char>): (name: string)
    ensures |name| >= 4 && name[|name| - 4..] == ".mp3"
    ensures forall k :: 0 <= k < |name| - 4 ==> name[k] !in invalid
    ensures name[..|name| - 4] == Sanitize(title, invalid)
    ensures |name| - 4 == |ValidPositions(title, invalid)|
    ensures forall k :: 0 <= k < |name| - 4 ==> name[k] == title[ValidPositions(title, invalid)[k]]
  {
    SanitizeKeepsValidPositions(title, invalid);
    Sanitize(title, invalid) + ".mp3"
  }
}
