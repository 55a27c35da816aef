/** The derived features `get_new_features` defines, each as a function of the
    columns it reads. */
module Features {
  import opened Wrappers
  import opened Strings
  import opened Intervals

  /** FamilySize = SibSp + Parch + 1: the passenger plus the relatives aboard. */
  function FamilySize(sibSp: int, parch: int): (n: int)
    ensures sibSp >= 0 && parch >= 0 ==> n >= 1
    ensures n - 1 == sibSp + parch
  {
    sibSp + parch + 1
  }

  /** IsAlone = (FamilySize == 1) as an int. */
  function IsAlone(familySize: int): (alone: int)
    ensures alone == 0 || alone == 1
    ensures alone == 1 <==> familySize == 1
  {
    if familySize == 1 then 1 else 0
  }

  /** IsMarried = (Title == "Mrs") as an int; a missing title compares unequal. */
  function IsMarried(title: Option<string>): (married: int)
    ensures married == 0 || married == 1
    ensures married == 1 <==> title == Some("Mrs")
  {
    if title == Some("Mrs") then 1 else 0
  }

  /** A passenger travels alone exactly when the counts of relatives are both
      zero, for the non-negative counts of the data. */
  lemma IsAloneMeansNoRelatives(sibSp: nat, parch: nat)
    ensures IsAlone(FamilySize(sibSp, parch)) == (if sibSp == 0 && parch == 0 then 1 else 0)
  {
  }

  /** The honorific of `Name`: `str.split(", ")[1].split(".")[0]`, None (NaN)
      when the name has no ", " (piece 1 is then padded with None). */
  function Title(name: string): (t: Option<string>)
    ensures t.Some? <==> Contains(name, ", ")
    ensures t.Some? ==> !Contains(t.value, ".") && !Contains(t.value, ", ")
  {
    var pieces := Split(name, ", ");
    if |pieces| < 2 then None
    else
      var t := Split(pieces[1], ".")[0];
      PrefixKeepsNoOccurrence(t, pieces[1], ", ");
      Some(t)
  }

  /** The first ", " of `before + ", " + after` is the one after `before`
      when `before` has none. */
  lemma FirstCommaFollowsBefore(name: string, before: string, after: string)
    requires name == before + ", " + after && !Contains(before, ", ")
    ensures FindFrom(name, ", ", 0) == Some(|before|)
  {
    var b := |before|;
    assert name[b..b + 2] == ", ";
    forall j: nat | j < b
      ensures !StartsAt(name, ", ", j)
    {
      if j + 2 <= b {
        assert name[j..j + 2] == before[j..j + 2];
        assert !StartsAt(before, ", ", j);
      } else {
        assert name[j + 1] == ',';
      }
    }
    assert StartsAt(name, ", ", b);
    var found := FindFrom(name, ", ", 0);
    assert found.Some? && found.value <= b;
    assert !StartsAt(name, ", ", found.value) || found.value >= b;
  }

  /** The title is the text right after the first ", " up to the first "." or
      the next ", ", whichever comes first, or to the end of the name. */
  lemma TitleIsTextAfterFirstComma(name: string, before: string, after: string)
    requires name == before + ", " + after && !Contains(before, ", ")
    ensures Title(name).Some?
    ensures Title(name).value <= after
    ensures var t := Title(name).value;
      |t| == |after| || StartsAt(after, ".", |t|) || StartsAt(after, ", ", |t|)
  {
    FirstCommaFollowsBefore(name, before, after);
    var b := |before|;
    assert name[..b] == before && name[b + 2..] == after;
    var later := Split(after, ", ");
    assert Split(name, ", ") == [before] + later;
    var piece := later[0];
    var t := Split(piece, ".")[0];
    assert Title(name) == Some(t);
    CutPoint(after, piece, later, t);
  }

  lemma CutPoint(after: string, piece: string, later: seq<string>, t: string)
    requires later == Split(after, ", ") && piece == later[0] && t == Split(piece, ".")[0]
    ensures t <= after
    ensures |t| == |after| || StartsAt(after, ".", |t|) || StartsAt(after, ", ", |t|)
  {
    SplitHeadEndsAtSeparator(after, ", ");
    SplitHeadEndsAtSeparator(piece, ".");
    PrefixOfPrefix(after, piece, t);
  }

  /** A prefix `t` of a prefix `piece` of `after`, where `piece` ends at a ", "
      or at the end and `t` ends at a "." of `piece` or at its end. */
  lemma PrefixOfPrefix(after: string, piece: string, t: string)
    requires piece <= after && t <= piece
    requires piece == after || StartsAt(after, ", ", |piece|)
    requires t == piece || StartsAt(piece, ".", |t|)
    ensures t <= after
    ensures |t| == |after| || StartsAt(after, ".", |t|) || StartsAt(after, ", ", |t|)
  {
    if t != piece {
      assert after[|t|..|t| + 1] == piece[|t|..|t| + 1];
    }
  }

  lemma NoCommaSpaceIn(s: string)
    requires forall i :: 0 <= i < |s| ==> s[i] != ','
    ensures !Contains(s, ", ")
  {
    forall i: nat | i <= |s|
      ensures !StartsAt(s, ", ", i)
    {
      if i + 2 <= |s| {
        assert s[i..i + 2][0] == s[i];
      }
    }
  }

  /** The only prefix of "honorific.given" that has no "." and is followed
      by ".", ", " or the end is the honorific. */
  lemma CutAtFirstDot(after: string, honorific: string, given: string, t: string)
    requires after == honorific + "." + given
    requires forall i :: 0 <= i < |honorific| ==> honorific[i] != ',' && honorific[i] != '.'
    requires t <= after && !Contains(t, ".")
    requires |t| == |after| || StartsAt(after, ".", |t|) || StartsAt(after, ", ", |t|)
    ensures t == honorific
  {
    var h := |honorific|;
    forall k: nat | k < h
      ensures !StartsAt(after, ".", k) && !StartsAt(after, ", ", k)
    {
      assert after[k] == honorific[k];
      if k + 1 <= |after| {
        assert after[k..k + 1][0] == honorific[k];
      }
      if k + 2 <= |after| {
        assert after[k..k + 2][0] == honorific[k];
      }
    }
    assert after[h..h + 1] == ".";
    assert |t| > h ==> StartsAt(t, ".", h);
    assert |t| == h;
    assert t == after[..h] == honorific;
  }

  /** A name of the usual "Surname, Honorific. Given names" shape has the
      honorific as its title. */
  lemma TitleOfUsualName(name: string, surname: string, honorific: string, given: string)
    requires name == surname + ", " + honorific + "." + given
    requires forall i :: 0 <= i < |surname| ==> surname[i] != ','
    requires forall i :: 0 <= i < |honorific| ==> honorific[i] != ',' && honorific[i] != '.'
    ensures Title(name) == Some(honorific)
  {
    var after := honorific + "." + given;
    NoCommaSpaceIn(surname);
    assert name == surname + ", " + after;
    TitleIsTextAfterFirstComma(name, surname, after);
    CutAtFirstDot(after, honorific, given, Title(name).value);
  }

  /** Two names of the usual shape and their titles. */
  lemma TitleOfMrsSmith()
    ensures Title("Smith, Mrs. Jane") == Some("Mrs")
  {
    var name := "Smith, Mrs. Jane";
    assert name == "Smith" + ", " + "Mrs" + "." + " Jane";
    TitleOfUsualName(name, "Smith", "Mrs", " Jane");
  }

  lemma TitleOfMrDoe()
    ensures Title("Doe, Mr. John") == Some("Mr")
  {
    var name := "Doe, Mr. John";
    assert name == "Doe" + ", " + "Mr" + "." + " John";
    TitleOfUsualName(name, "Doe", "Mr", " John");
  }
}
