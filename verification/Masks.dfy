/** Dotted field masks such as "block.tool.status". */
module Masks {
  type Path = seq<string>

  predicate HasDot(s: string) {
    '.' in s
  }

  /** The segments between dots. There is always at least one, possibly empty. */
  function Split(s: string): (parts: Path)
    ensures |parts| >= 1
    ensures HasDot(s) <==> |parts| > 1
  {
    if s == "" then [""]
    else
      var rest := Split(s[1..]);
      if s[0] == '.' then [""] + rest else [[s[0]] + rest[0]] + rest[1..]
  }

  /** Everything before and after the first dot. */
  datatype CutResult = NoDot | Cut(before: string, after: string)

  function CutAtDot(s: string): (r: CutResult)
    ensures r.NoDot? <==> !HasDot(s)
    ensures r.Cut? ==> s == r.before + "." + r.after && !HasDot(r.before)
  {
    if s == "" then NoDot
    else if s[0] == '.' then Cut("", s[1..])
    else match CutAtDot(s[1..])
      case NoDot => NoDot
      case Cut(before, after) => Cut([s[0]] + before, after)
  }

  function Join(parts: Path): string
    requires |parts| >= 1
  {
    if |parts| == 1 then parts[0] else parts[0] + "." + Join(parts[1..])
  }

  lemma {:induction false} PartsHaveNoDots(s: string)
    ensures forall i :: 0 <= i < |Split(s)| ==> !HasDot(Split(s)[i])
  {
    if s != "" {
      PartsHaveNoDots(s[1..]);
    }
  }

  lemma JoinBehind(c: char, parts: Path)
    requires parts != []
    ensures Join([[c] + parts[0]] + parts[1..]) == [c] + Join(parts)
  {
    var longer := [[c] + parts[0]] + parts[1..];
    assert longer[1..] == parts[1..];
  }

  lemma JoinAfterDot(parts: Path)
    requires parts != []
    ensures Join([""] + parts) == "." + Join(parts)
  {
    assert ([""] + parts)[1..] == parts;
  }

  /** Splitting is the inverse of joining, and no segment holds a dot: together they pin Split down. */
  lemma {:induction false} SplitJoin(s: string)
    ensures Join(Split(s)) == s
    ensures forall part :: part in Split(s) ==> !HasDot(part)
  {
    hide Join, HasDot;
    PartsHaveNoDots(s);
    if s == "" {
      JoinOne("");
    } else {
      SplitJoin(s[1..]);
      assert s == [s[0]] + s[1..];
      if s[0] == '.' {
        JoinAfterDot(Split(s[1..]));
      } else {
        JoinBehind(s[0], Split(s[1..]));
      }
    }
  }

  lemma JoinOne(part: string)
    ensures Join([part]) == part
  {
  }

  /** Cutting at the first dot takes off the first segment. */
  lemma {:induction false} SplitAfterCut(s: string)
    requires HasDot(s)
    ensures Split(s) == [CutAtDot(s).before] + Split(CutAtDot(s).after)
  {
    if s[0] != '.' {
      assert HasDot(s[1..]);
      SplitAfterCut(s[1..]);
    }
  }

  lemma {:induction false} CutIsFirst(before: string, after: string)
    requires !HasDot(before)
    ensures CutAtDot(before + "." + after) == Cut(before, after)
  {
    var s := before + "." + after;
    if before == "" {
      assert s[1..] == after;
    } else {
      assert s[1..] == before[1..] + "." + after;
      assert !HasDot(before[1..]);
      CutIsFirst(before[1..], after);
      assert [before[0]] + before[1..] == before;
    }
  }

  predicate HasPrefix(s: string, prefix: string) {
    prefix <= s
  }

  /** A mask under root: the root is its first segment, and what follows is the relative path. */
  lemma MaskUnderRoot(mask: string, root: string)
    requires !HasDot(root) && HasPrefix(mask, root + ".")
    ensures CutAtDot(mask) == Cut(root, mask[|root| + 1..])
    ensures Split(mask) == [root] + Split(mask[|root| + 1..])
  {
    assert mask == root + "." + mask[|root| + 1..];
    CutIsFirst(root, mask[|root| + 1..]);
    assert mask[|root|] == '.';
    SplitAfterCut(mask);
  }
}
