/**
 Choosing which directory entries a script works on: both scripts keep the
 names whose lower-cased form ends with an extension (".mov" for the video
 crop, ".jpg" for the thumbnails), in the order the directory listing gave.

 Lower-casing is modelled on ASCII letters only.
 */
module FileFilter {

  const MovExtension := ".mov"
  const JpgExtension := ".jpg"

  function LowerChar(c: char): char {
    if 'A' <= c <= 'Z' then ((c as int) - ('A' as int) + ('a' as int)) as char else c
  }

  /**
   `String.prototype.toLowerCase` on ASCII letters: no upper-case letter is
   left, each upper-case letter becomes the lower-case letter at the same place
   in the alphabet, and every other character is kept.
   */
  function ToLower(s: string): (l: string)
    ensures |l| == |s|
    ensures forall i :: 0 <= i < |l| ==> !('A' <= l[i] <= 'Z')
    ensures forall i :: 0 <= i < |s| && 'A' <= s[i] <= 'Z' ==>
      'a' <= l[i] <= 'z' && (l[i] as int) - ('a' as int) == (s[i] as int) - ('A' as int)
    ensures forall i :: 0 <= i < |s| && !('A' <= s[i] <= 'Z') ==> l[i] == s[i]
  {
    seq(|s|, i requires 0 <= i < |s| => LowerChar(s[i]))
  }

  /** Lower-casing a lower-cased string changes nothing. */
  lemma ToLowerIdempotent(s: string)
    ensures ToLower(ToLower(s)) == ToLower(s)
  {
  }

  /** `name.toLowerCase().endsWith(ext)` compares only the last |ext| characters, lower-cased. */
  lemma HasExtensionOnTail(name: string, ext: string)
    ensures HasExtension(name, ext) <==> |ext| <= |name| && ToLower(name[|name| - |ext|..]) == ext
  {
    if |ext| <= |name| {
      assert ToLower(name)[|name| - |ext|..] == ToLower(name[|name| - |ext|..]);
    }
  }

  predicate EndsWith(s: string, suffix: string) {
    |suffix| <= |s| && s[|s| - |suffix|..] == suffix
  }

  /** `name.toLowerCase().endsWith(ext)`. */
  predicate HasExtension(name: string, ext: string) {
    EndsWith(ToLower(name), ext)
  }

  /** `names.filter(f => f.toLowerCase().endsWith(ext))`. */
  function SelectByExtension(names: seq<string>, ext: string): (r: seq<string>)
    ensures |r| <= |names|
    ensures forall i :: 0 <= i < |r| ==> HasExtension(r[i], ext) && r[i] in names
    ensures forall i :: 0 <= i < |names| && HasExtension(names[i], ext) ==> names[i] in r
  {
    if names == [] then []
    else (if HasExtension(names[0], ext) then [names[0]] else []) + SelectByExtension(names[1..], ext)
  }

  /** Selecting from a listing split in two selects from each part, keeping their order. */
  lemma {:induction false} SelectKeepsOrder(a: seq<string>, b: seq<string>, ext: string)
    ensures SelectByExtension(a + b, ext) == SelectByExtension(a, ext) + SelectByExtension(b, ext)
  {
    if a == [] {
      assert a + b == b;
    } else {
      assert (a + b)[1..] == a[1..] + b;
      SelectKeepsOrder(a[1..], b, ext);
    }
  }

  /** Every matching name is kept as often as it occurs, every other name is dropped. */
  lemma {:induction false} SelectCounts(names: seq<string>, ext: string, name: string)
    ensures multiset(SelectByExtension(names, ext))[name] ==
      if HasExtension(name, ext) then multiset(names)[name] else 0
  {
    if names != [] {
      assert names == [names[0]] + names[1..];
      SelectCounts(names[1..], ext, name);
    }
  }

  /** Selecting twice is selecting once. */
  lemma {:induction false} SelectIdempotent(names: seq<string>, ext: string)
    ensures SelectByExtension(SelectByExtension(names, ext), ext) == SelectByExtension(names, ext)
  {
    if names != [] {
      var head := if HasExtension(names[0], ext) then [names[0]] else [];
      var rest := SelectByExtension(names[1..], ext);
      SelectKeepsOrder(head, rest, ext);
      assert SelectByExtension(head, ext) == head by {
        if head != [] {
          assert head[1..] == [];
        }
      }
      SelectIdempotent(names[1..], ext);
    }
  }

  /** Lower-casing twice is lower-casing once, so the test ignores case: "CLIP.MOV" matches like "clip.mov". */
  lemma ExtensionIgnoresCase(name: string, ext: string)
    ensures HasExtension(ToLower(name), ext) == HasExtension(name, ext)
  {
    assert ToLower(ToLower(name)) == ToLower(name);
  }

  /** The videos crop-mov-to-9-16.js crops. */
  function MovFiles(names: seq<string>): (r: seq<string>)
    ensures forall i :: 0 <= i < |r| ==> HasExtension(r[i], MovExtension)
    ensures forall i :: 0 <= i < |names| ==> (names[i] in r <==> HasExtension(names[i], MovExtension))
  {
    SelectByExtension(names, MovExtension)
  }

  /** The pictures process.js turns into portrait thumbnails and counts by size. */
  function JpgFiles(names: seq<string>): (r: seq<string>)
    ensures forall i :: 0 <= i < |r| ==> HasExtension(r[i], JpgExtension)
    ensures forall i :: 0 <= i < |names| ==> (names[i] in r <==> HasExtension(names[i], JpgExtension))
  {
    SelectByExtension(names, JpgExtension)
  }

  lemma UpperCaseMovMatches()
    ensures HasExtension("Clip.MOV", MovExtension)
  {
    assert ToLower("Clip.MOV")[4..] == ".mov";
  }

  lemma TextFileDoesNotMatch()
    ensures !HasExtension("notes.txt", MovExtension)
  {
    assert ToLower("notes.txt")[8] == 't';
  }

  lemma LowerCaseMovMatches()
    ensures HasExtension("b.mov", MovExtension)
  {
    assert ToLower("b.mov")[1..] == ".mov";
  }

  /** The test ignores case, and a name that is only the letters "mov" has no ".mov" ending. */
  lemma MixedCaseListing()
    ensures MovFiles(["Clip.MOV", "notes.txt", "b.mov", "mov"]) == ["Clip.MOV", "b.mov"]
  {
    UpperCaseMovMatches();
    TextFileDoesNotMatch();
    LowerCaseMovMatches();
  }
}
