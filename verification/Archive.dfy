/** Entry names of a multi-file archive: reduced to a flat name, then made unique by a "-N" suffix. */
module Archive {
  import opened Paths
  import opened Seqs

  // ---- Flattening a stored filename --------------------------------------------------------------

  /** Backslashes become slashes. */
  function Slashed(s: string): (r: string)
    ensures '\\' !in r
  {
    if s == [] then [] else [if s[0] == '\\' then '/' else s[0]] + Slashed(s[1..])
  }

  lemma {:induction false} SlashedAt(s: string, i: nat)
    requires i < |s|
    ensures |Slashed(s)| == |s| && Slashed(s)[i] == if s[i] == '\\' then '/' else s[i]
  {
    if |s| > 1 { SlashedAt(s[1..], if i == 0 then 0 else i - 1); }
  }

  function SanitizeEntryName(filename: string): string {
    var name := PathBase(Slashed(filename));
    if name == "" || name == "." || name == ".." || name == "/" then "file" else name
  }

  /** A name that can only denote a member at the archive root. */
  predicate Flat(name: string) {
    name != "" && name != "." && name != ".." && '/' !in name && '\\' !in name
  }

  lemma SanitizedIsFlat(filename: string)
    ensures Flat(SanitizeEntryName(filename))
  {
    assert '\\' !in PathBase(Slashed(filename));
  }

  lemma {:induction false} SlashedFlat(s: string)
    requires '\\' !in s
    ensures Slashed(s) == s
  {
    if s != [] {
      assert s[0] in s;
      SlashedFlat(s[1..]);
      assert s == [s[0]] + s[1..];
    }
  }

  lemma {:induction false} LeafFlat(s: string)
    requires '/' !in s
    ensures Leaf(s) == s
  {
  }

  /** A filename is kept as it is exactly when it is already flat. */
  lemma SanitizeKeepsIffFlat(filename: string)
    ensures SanitizeEntryName(filename) == filename <==> Flat(filename)
  {
    SanitizedIsFlat(filename);
    if Flat(filename) {
      SlashedFlat(filename);
      assert filename[|filename| - 1] in filename;
      assert TrimSlashes(filename) == filename;
      LeafFlat(filename);
    }
  }

  predicate AllSlashes(s: string) {
    forall i :: 0 <= i < |s| ==> s[i] == '/'
  }

  /** The name is the last non-empty component of the path, with nothing but slashes after it. */
  predicate LastName(s: string, dir: string, name: string, tail: string) {
    && s == dir + name + tail && AllSlashes(tail)
    && name != "" && '/' !in name && (dir == "" || dir[|dir| - 1] == '/')
  }

  lemma {:induction false} TrimTail(x: string, tail: string)
    requires AllSlashes(tail) && (x == "" || x[|x| - 1] != '/')
    ensures TrimSlashes(x + tail) == x
    decreases |tail|
  {
    if tail == "" {
      AppendNothing(x);
    } else {
      var less := tail[..|tail| - 1];
      assert (x + tail)[..|x + tail| - 1] == x + less;
      TrimTail(x, less);
    }
  }

  lemma {:induction false} LeafOf(dir: string, name: string)
    requires '/' !in name && (dir == "" || dir[|dir| - 1] == '/')
    ensures Leaf(dir + name) == name
    decreases |name|
  {
    if name == "" {
      AppendNothing(dir);
    } else {
      var less := name[..|name| - 1];
      assert (dir + name)[..|dir + name| - 1] == dir + less;
      LeafOf(dir, less);
      assert name == less + [name[|name| - 1]];
    }
  }

  /** path.Base is the last non-empty component; of nothing but slashes it is a slash, and of nothing a dot. */
  lemma BaseIsLastName(s: string, dir: string, name: string, tail: string)
    requires LastName(s, dir, name, tail)
    ensures PathBase(s) == name
  {
    var x := dir + name;
    assert x[|x| - 1] == name[|name| - 1] && name[|name| - 1] in name;
    TrimTail(x, tail);
    LeafOf(dir, name);
  }

  lemma BaseOfSlashes(s: string)
    requires AllSlashes(s)
    ensures PathBase(s) == if s == "" then "." else "/"
  {
    TrimTail("", s);
    assert "" + s == s;
  }

  lemma {:induction false} TrimRest(s: string)
    ensures AllSlashes(s[|TrimSlashes(s)|..])
  {
    if s != "" && s[|s| - 1] == '/' {
      var init := s[..|s| - 1];
      TrimRest(init);
      assert s[|TrimSlashes(init)|..] == init[|TrimSlashes(init)|..] + "/";
    }
  }

  /** Every path that is not all slashes has a last name. */
  lemma HasLastName(s: string) returns (dir: string, name: string, tail: string)
    requires !AllSlashes(s)
    ensures LastName(s, dir, name, tail)
  {
    var x := TrimSlashes(s);
    TrimRest(s);
    name, tail := Leaf(x), s[|x|..];
    dir := x[..|x| - |name|];
    assert x == "" ==> s == tail;
  }

  /** What a filename becomes: its last non-empty component, backslashes counting as slashes, or "file" when it has
      none or that is a dot name. */
  lemma SanitizedExact(filename: string, dir: string, name: string, tail: string)
    ensures LastName(Slashed(filename), dir, name, tail) ==>
      SanitizeEntryName(filename) == if name == "." || name == ".." then "file" else name
    ensures AllSlashes(Slashed(filename)) ==> SanitizeEntryName(filename) == "file"
  {
    var s := Slashed(filename);
    if LastName(s, dir, name, tail) { BaseIsLastName(s, dir, name, tail); }
    if AllSlashes(s) { BaseOfSlashes(s); }
  }

  // ---- Decimal suffixes --------------------------------------------------------------------------

  function Digit(d: nat): char
    requires d < 10
  {
    '0' + d as char
  }

  function Itoa(n: nat): (r: string)
    ensures r != [] && forall i :: 0 <= i < |r| ==> '0' <= r[i] <= '9'
  {
    (if n < 10 then [] else Itoa(n / 10)) + [Digit(n % 10)]
  }

  lemma {:induction false} ItoaInjective(m: nat, n: nat)
    requires Itoa(m) == Itoa(n)
    ensures m == n
    decreases m
  {
    assert Itoa(m)[|Itoa(m)| - 1] == Digit(m % 10) && Itoa(n)[|Itoa(n)| - 1] == Digit(n % 10);
    assert m % 10 == n % 10;
    assert Itoa(m)[..|Itoa(m)| - 1] == (if m < 10 then [] else Itoa(m / 10));
    assert Itoa(n)[..|Itoa(n)| - 1] == (if n < 10 then [] else Itoa(n / 10));
    if m >= 10 && n >= 10 {
      ItoaInjective(m / 10, n / 10);
    }
  }

  function Suffixed(name: string, n: nat): string {
    name + "-" + Itoa(n)
  }

  lemma SuffixedInjective(name: string, m: nat, n: nat)
    requires Suffixed(name, m) == Suffixed(name, n)
    ensures m == n
  {
    assert Suffixed(name, m)[|name| + 1..] == Itoa(m);
    assert Suffixed(name, n)[|name| + 1..] == Itoa(n);
    ItoaInjective(m, n);
  }

  lemma SuffixedIsFlat(name: string, n: nat)
    requires Flat(name)
    ensures Flat(Suffixed(name, n)) && Suffixed(name, n) != name
  {
  }

  /** The extension of a name: from its last dot on, empty when it has none. */
  function Extension(name: string): (r: string)
    ensures |r| <= |name| && name[|name| - |r|..] == r && (r != "" ==> r[0] == '.')
    ensures r == "" <==> '.' !in name
  {
    if name == "" then ""
    else if name[|name| - 1] == '.' then "."
    else if Extension(name[..|name| - 1]) == "" then ""
    else Extension(name[..|name| - 1]) + [name[|name| - 1]]
  }

  function Stem(name: string): string {
    name[..|name| - |Extension(name)|]
  }

  /** The ordinal goes before the extension if and only if there is none: otherwise it goes after it. */
  lemma OrdinalBeforeExtensionIff(name: string, n: nat)
    ensures Suffixed(name, n) == Stem(name) + "-" + Itoa(n) + Extension(name) <==> Extension(name) == ""
  {
    var stem, ext := Stem(name), Extension(name);
    assert name == stem + ext;
    if ext == "" {
      assert Suffixed(name, n) == stem + "-" + Itoa(n) + ext;
    } else {
      assert Suffixed(name, n)[|stem|] == '.';
      assert (stem + "-" + Itoa(n) + ext)[|stem|] == '-';
    }
  }

  // ---- Making names unique -----------------------------------------------------------------------

  class EntryNames {
    var used: map<string, nat>

    constructor ()
      ensures used == map[]
    {
      used := map[];
    }

    /** A first-seen name passes through; a collision takes the first free ordinal from the remembered one on. */
    method DedupeEntryName(filename: string) returns (name: string, ghost ordinal: nat)
      modifies this
      ensures var base := if filename == "" then "file" else filename;
        if base !in old(used) then
          name == base && used == old(used)[base := 1]
        else
          && name == Suffixed(base, ordinal) && ordinal >= old(used)[base]
          && name !in old(used)
          && (forall k :: old(used)[base] <= k < ordinal ==> Suffixed(base, k) in old(used))
          && used == old(used)[base := ordinal + 1][name := 1]
    {
      var base := if filename == "" then "file" else filename;
      if base !in used {
        used := used[base := 1];
        return base, 0;
      }
      var n := used[base];
      used := used[base := n + 1];
      var deduped := Suffixed(base, n);
      ghost var tried: set<string> := {};
      while deduped in used
        invariant n >= old(used)[base] && deduped == Suffixed(base, n)
        invariant used == old(used)[base := n + 1]
        invariant forall k :: old(used)[base] <= k < n ==> Suffixed(base, k) in old(used)
        invariant tried <= old(used).Keys
        invariant forall s :: s in tried ==> exists k: nat :: k < n && s == Suffixed(base, k)
        decreases old(used).Keys - tried
      {
        if deduped in tried {
          var k: nat :| k < n && deduped == Suffixed(base, k);
          SuffixedInjective(base, k, n);
        }
        tried := tried + {deduped};
        n := n + 1;
        used := used[base := n + 1];
        deduped := Suffixed(base, n);
      }
      used := used[deduped := 1];
      return deduped, n;
    }
  }

  /** k is the least positive ordinal that makes the name free. */
  predicate FirstFree(base: string, earlier: seq<string>, k: nat) {
    k >= 1 && Suffixed(base, k) !in earlier && forall j :: 1 <= j < k ==> Suffixed(base, j) in earlier
  }

  /** What a member's entry name must be, given its sanitized filename and the names of the members before it: that
      filename when it is free, and otherwise that with the least ordinal that is. */
  ghost predicate Named(base: string, earlier: seq<string>, name: string) {
    if base !in earlier then name == base
    else exists k: nat :: FirstFree(base, earlier, k) && name == Suffixed(base, k)
  }

  ghost predicate AllNamed(bases: seq<string>, names: seq<string>)
    requires |bases| == |names|
  {
    forall i :: 0 <= i < |names| ==> Named(bases[i], names[..i], names[i])
  }

  lemma AllNamedAppend(bases: seq<string>, names: seq<string>, base: string, name: string)
    requires |bases| == |names| && AllNamed(bases, names) && Named(base, names, name)
    ensures AllNamed(bases + [base], names + [name])
  {
    assert forall i :: 0 <= i <= |names| ==> (names + [name])[..i] == names[..i];
    assert names[..|names|] == names;
  }

  /** So the names of an archive are flat and pairwise distinct. */
  lemma AllNamedDistinct(bases: seq<string>, names: seq<string>)
    requires |bases| == |names| && AllNamed(bases, names) && forall i :: 0 <= i < |bases| ==> Flat(bases[i])
    ensures forall i :: 0 <= i < |names| ==> Flat(names[i])
    ensures forall i, j :: 0 <= i < j < |names| ==> names[i] != names[j]
  {
    forall i | 0 <= i < |names| ensures Flat(names[i]) && names[i] !in names[..i] {
      assert Named(bases[i], names[..i], names[i]);
      if bases[i] in names[..i] {
        var k: nat :| FirstFree(bases[i], names[..i], k) && names[i] == Suffixed(bases[i], k);
        SuffixedIsFlat(bases[i], k);
      }
    }
    forall i, j | 0 <= i < j < |names| ensures names[i] != names[j] {
      assert names[i] == names[..j][i];
    }
  }

  /** A remembered ordinal never skips a free name. */
  predicate Remembers(used: map<string, nat>) {
    forall base :: base in used ==> used[base] >= 1 && forall j :: 1 <= j < used[base] ==> Suffixed(base, j) in used
  }

  /** The naming loop of streamArchive, for any stored filenames however they collide. */
  method NameMembers(filenames: seq<string>) returns (names: seq<string>, bases: seq<string>)
    ensures |names| == |filenames| == |bases| && AllNamed(bases, names)
    ensures forall i :: 0 <= i < |bases| ==> bases[i] == SanitizeEntryName(filenames[i])
    ensures forall i, j :: 0 <= i < j < |names| ==> names[i] != names[j]
    ensures forall i :: 0 <= i < |names| ==> Flat(names[i])
  {
    var taken := new EntryNames();
    names, bases := [], [];
    for i := 0 to |filenames|
      invariant fresh(taken) && |names| == |bases| == i && AllNamed(bases, names)
      invariant forall j :: 0 <= j < i ==> bases[j] == SanitizeEntryName(filenames[j]) && Flat(bases[j])
      invariant (forall s :: s in taken.used <==> s in names) && Remembers(taken.used)
    {
      var base := SanitizeEntryName(filenames[i]);
      SanitizedIsFlat(filenames[i]);
      ghost var before := taken.used;
      var name, ordinal := taken.DedupeEntryName(base);
      if base in before {
        SuffixedIsFlat(base, ordinal);
        NextRemembers(before, base, ordinal);
        assert FirstFree(base, names, ordinal);
      }
      AllNamedAppend(bases, names, base, name);
      names, bases := names + [name], bases + [base];
    }
    AllNamedDistinct(bases, names);
  }

  lemma NextRemembers(used: map<string, nat>, base: string, k: nat)
    requires Remembers(used) && base in used && used[base] <= k && Suffixed(base, k) != base
    requires forall j :: used[base] <= j < k ==> Suffixed(base, j) in used
    ensures Remembers(used[base := k + 1][Suffixed(base, k) := 1])
    ensures k >= 1 && forall j :: 1 <= j < k ==> Suffixed(base, j) in used
  {
  }

  lemma TwoOfOne(base: string, names: seq<string>)
    requires |names| == 2 && AllNamed([base, base], names)
    ensures names == [base, base + "-1"]
  {
    assert Named([base, base][0], names[..0], names[0]) && Named([base, base][1], names[..1], names[1]);
    assert names[..0] == [] && names[..1] == [base];
    assert |Suffixed(base, 1)| > |base| && Suffixed(base, 1) !in [base];
    var k: nat :| FirstFree(base, [base], k) && names[1] == Suffixed(base, k);
    assert k == 1 && Itoa(1) == "1";
    assert base + "-" + "1" == base + "-1";
  }

  /** Two members of one flat name keep it and take the ordinal 1, after any extension. */
  method TwoAlike(name: string) returns (names: seq<string>)
    requires Flat(name)
    ensures names == [name, name + "-1"]
  {
    var bases;
    names, bases := NameMembers([name, name]);
    SanitizeKeepsIffFlat(name);
    assert bases == [name, name];
    TwoOfOne(name, names);
  }

  /** So two files named a.txt are not a.txt and a-1.txt. */
  method TwoTextFiles() returns (names: seq<string>)
    ensures names == ["a.txt", "a.txt-1"] && Extension("a.txt") == ".txt"
  {
    names := TwoAlike("a.txt");
    assert "a.txt" + "-1" == "a.txt-1";
  }
}
