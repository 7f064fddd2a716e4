/** Reading the bullets of a version pull request (scripts/backfill-changelogs.ts, `parseVersionPrBody`).
    Lines are given as what the regular expressions of the script make of them; the shapes exclude each
    other by their first characters. Texts are trimmed. */
module VersionPrBody {
  import opened Wrappers

  datatype Line =
    | Section(packageName: string, version: string)
    | Bump(bump: string)
    | Bullet(sha: string, text: string)
    | Indented(text: string)
    | Other

  datatype ParsedBullet = ParsedBullet(packageName: string, version: string, bump: string, sha: string, text: string)

  // ---------------------------------------------------------------- what the bullets of a body are

  /** Lines before which a bullet is complete. */
  ghost predicate EndsBullet(line: Line) {
    line.Section? || line.Bump? || line.Bullet?
  }

  /** The texts of the indented lines from `n` up to the next heading or bullet. */
  ghost function Continuation(lines: seq<Line>, n: nat): string
    requires n <= |lines|
    decreases |lines| - n
  {
    if n == |lines| || EndsBullet(lines[n]) then ""
    else (if lines[n].Indented? then " " + lines[n].text else "") + Continuation(lines, n + 1)
  }

  ghost function FullText(lines: seq<Line>, i: nat): string
    requires i < |lines| && lines[i].Bullet?
  {
    lines[i].text + Continuation(lines, i + 1)
  }

  /** Line `j` is the nearest section heading before line `i`. */
  ghost predicate IsSectionOf(lines: seq<Line>, i: nat, j: nat)
    requires i <= |lines|
  {
    j < i && lines[j].Section? && forall l :: j < l < i ==> !lines[l].Section?
  }

  /** Line `k` is the nearest bump heading before line `i`, and stands in the section of line `j`. */
  ghost predicate IsBumpOf(lines: seq<Line>, i: nat, j: nat, k: nat)
    requires i <= |lines|
  {
    IsSectionOf(lines, i, j) && j < k < i && lines[k].Bump? && forall l :: k < l < i ==> !lines[l].Bump?
  }

  /** What a bullet line stands for, under the headings `j` and `k`. */
  ghost predicate IsBulletUnder(lines: seq<Line>, i: nat, j: nat, k: nat, b: ParsedBullet)
    requires i < |lines|
  {
    && lines[i].Bullet? && IsBumpOf(lines, i, j, k)
    && b == ParsedBullet(lines[j].packageName, lines[j].version, lines[k].bump, lines[i].sha, FullText(lines, i))
  }

  ghost predicate IsBulletAt(lines: seq<Line>, i: nat, b: ParsedBullet)
    requires i < |lines|
  {
    exists j: nat, k: nat :: IsBulletUnder(lines, i, j, k, b)
  }

  ghost predicate HasHeadings(lines: seq<Line>, i: nat)
    requires i <= |lines|
  {
    exists j: nat, k: nat :: IsBumpOf(lines, i, j, k)
  }

  /** The line is a bullet under headings, and not one of the noise. */
  ghost predicate Wanted(lines: seq<Line>, noise: string -> bool, i: nat)
    requires i < |lines|
  {
    lines[i].Bullet? && HasHeadings(lines, i) && !noise(FullText(lines, i))
  }

  /** The bullets stand for the wanted lines before `n`, one for each, in order. */
  ghost predicate IsListing(lines: seq<Line>, noise: string -> bool, n: nat, bullets: seq<ParsedBullet>, at: seq<nat>)
    requires n <= |lines|
  {
    && |at| == |bullets|
    && (forall m :: 0 <= m < |at| ==> at[m] < n && Wanted(lines, noise, at[m]) && IsBulletAt(lines, at[m], bullets[m]))
    && (forall m, l :: 0 <= m < l < |at| ==> at[m] < at[l])
    && (forall i: nat :: i < n && Wanted(lines, noise, i) ==> i in at)
  }

  /** The bullets of a body. */
  ghost predicate AreBulletsOf(lines: seq<Line>, noise: string -> bool, bullets: seq<ParsedBullet>) {
    exists at: seq<nat> :: IsListing(lines, noise, |lines|, bullets, at)
  }

  /** A body has one list of bullets only. */
  lemma BulletsAreUnique(lines: seq<Line>, noise: string -> bool, bullets: seq<ParsedBullet>, others: seq<ParsedBullet>)
    requires AreBulletsOf(lines, noise, bullets) && AreBulletsOf(lines, noise, others)
    ensures bullets == others
  {
    hide IsListing;
    var at: seq<nat> :| IsListing(lines, noise, |lines|, bullets, at);
    var where: seq<nat> :| IsListing(lines, noise, |lines|, others, where);
    ListingIsUnique(lines, noise, bullets, at, others, where);
  }

  lemma ListingIsUnique(lines: seq<Line>, noise: string -> bool, bullets: seq<ParsedBullet>, at: seq<nat>,
                        others: seq<ParsedBullet>, where: seq<nat>)
    requires IsListing(lines, noise, |lines|, bullets, at) && IsListing(lines, noise, |lines|, others, where)
    ensures bullets == others
  {
    hide IsBulletAt, Wanted;
    AscendingIsUnique(at, where);
    forall m | 0 <= m < |at| ensures bullets[m] == others[m] {
      BulletIsUnique(lines, at[m], bullets[m], others[m]);
    }
  }

  lemma BulletIsUnique(lines: seq<Line>, i: nat, a: ParsedBullet, b: ParsedBullet)
    requires i < |lines| && IsBulletAt(lines, i, a) && IsBulletAt(lines, i, b)
    ensures a == b
  {
    var j, k :| IsBulletUnder(lines, i, j, k, a);
    var l, m :| IsBulletUnder(lines, i, l, m, b);
    assert j == l && k == m;
  }

  lemma EmptyLikewise(a: seq<nat>, b: seq<nat>)
    requires forall i :: i in a <==> i in b
    ensures a == [] <==> b == []
  {
    if a != [] {
      assert a[0] in a;
    }
    if b != [] {
      assert b[0] in b;
    }
  }

  lemma {:induction false} AscendingIsUnique(a: seq<nat>, b: seq<nat>)
    requires forall m, l :: 0 <= m < l < |a| ==> a[m] < a[l]
    requires forall m, l :: 0 <= m < l < |b| ==> b[m] < b[l]
    requires forall i :: i in a <==> i in b
    ensures a == b
  {
    EmptyLikewise(a, b);
    if a != [] {
      var x, y := a[|a| - 1], b[|b| - 1];
      assert x in b && y in a;
      assert x == y;
      var c, d := a[..|a| - 1], b[..|b| - 1];
      forall i ensures i in c <==> i in d {
        assert i in a <==> i in c || i == x;
        assert i in b <==> i in d || i == y;
        assert x !in c && y !in d;
      }
      AscendingIsUnique(c, d);
      assert a == c + [x] && b == d + [y];
    }
  }

  // ---------------------------------------------------------------- the code

  datatype Heading = Heading(packageName: string, version: string)

  /** Where the loop stands: the headings in force before line `n`. */
  ghost predicate HeadingsInForce(lines: seq<Line>, n: nat, section: Option<Heading>, bump: Option<string>)
    requires n <= |lines|
  {
    && (section.None? ==> forall j: nat :: !IsSectionOf(lines, n, j))
    && (section.Some? ==>
          exists j: nat :: IsSectionOf(lines, n, j) && section == Some(Heading(lines[j].packageName, lines[j].version)))
    && (section.Some? && bump.None? ==> !HasHeadings(lines, n))
    && (section.Some? && bump.Some? ==>
          exists j: nat, k: nat ::
            && IsBumpOf(lines, n, j, k) && section == Some(Heading(lines[j].packageName, lines[j].version))
            && bump == Some(lines[k].bump))
  }

  /** The bullet being read: line `c`, its text complete but for the lines from `n` on. */
  ghost predicate IsOpen(lines: seq<Line>, n: nat, c: nat, current: ParsedBullet)
    requires n <= |lines|
  {
    c < n && IsBulletAt(lines, c, current.(text := current.text + Continuation(lines, n)))
  }

  lemma SectionRead(lines: seq<Line>, n: nat)
    requires n < |lines| && lines[n].Section?
    ensures HeadingsInForce(lines, n + 1, Some(Heading(lines[n].packageName, lines[n].version)), None)
  {
    assert IsSectionOf(lines, n + 1, n);
  }

  lemma BumpRead(lines: seq<Line>, n: nat, section: Option<Heading>, bump: Option<string>)
    requires n < |lines| && lines[n].Bump? && HeadingsInForce(lines, n, section, bump)
    ensures HeadingsInForce(lines, n + 1, section, Some(lines[n].bump))
  {
    if section.None? {
      var next := n + 1;
      assert forall j: nat :: IsSectionOf(lines, next, j) ==> IsSectionOf(lines, n, j);
    } else {
      var j: nat :| IsSectionOf(lines, n, j) && section == Some(Heading(lines[j].packageName, lines[j].version));
      assert IsBumpOf(lines, n + 1, j, n) && IsSectionOf(lines, n + 1, j);
    }
  }

  lemma NoHeadingRead(lines: seq<Line>, n: nat, section: Option<Heading>, bump: Option<string>)
    requires n < |lines| && !lines[n].Section? && !lines[n].Bump? && HeadingsInForce(lines, n, section, bump)
    ensures HeadingsInForce(lines, n + 1, section, bump)
  {
    var next := n + 1;
    assert forall j: nat :: IsSectionOf(lines, next, j) <==> IsSectionOf(lines, n, j);
    assert forall j: nat, k: nat :: IsBumpOf(lines, next, j, k) <==> IsBumpOf(lines, n, j, k);
  }

  /** `at` lists the wanted lines before `n`, but for the open one. */
  ghost predicate IsListingButOpen(lines: seq<Line>, noise: string -> bool, n: nat, bullets: seq<ParsedBullet>,
                                   at: seq<nat>, current: Option<ParsedBullet>, c: nat)
    requires n <= |lines|
  {
    if current.None? then IsListing(lines, noise, n, bullets, at)
    else
      && IsOpen(lines, n, c, current.value)
      && IsListing(lines, noise, c, bullets, at)
      && forall i :: c < i < n ==> !lines[i].Bullet?
  }

  /** `flush` */
  method Flush(noise: string -> bool, bullets: seq<ParsedBullet>, current: Option<ParsedBullet>,
               ghost lines: seq<Line>, ghost n: nat, ghost at: seq<nat>, ghost c: nat)
    returns (r: seq<ParsedBullet>, ghost where: seq<nat>)
    requires n <= |lines| && (n < |lines| ==> EndsBullet(lines[n]))
    requires IsListingButOpen(lines, noise, n, bullets, at, current, c)
    ensures r == if current.Some? && !noise(current.value.text) then bullets + [current.value] else bullets
    ensures IsListing(lines, noise, n, r, where)
  {
    r, where := bullets, at;
    if current.Some? {
      Closed(lines, noise, n, bullets, at, current.value, c);
      if !noise(current.value.text) {
        r, where := bullets + [current.value], at + [c];
      }
    }
  }

  lemma Closed(lines: seq<Line>, noise: string -> bool, n: nat, bullets: seq<ParsedBullet>, at: seq<nat>,
               current: ParsedBullet, c: nat)
    requires n <= |lines| && (n < |lines| ==> EndsBullet(lines[n]))
    requires IsListingButOpen(lines, noise, n, bullets, at, Some(current), c)
    ensures if noise(current.text) then IsListing(lines, noise, n, bullets, at)
            else IsListing(lines, noise, n, bullets + [current], at + [c])
  {
    assert current.text + Continuation(lines, n) == current.text;
    var j, k :| IsBulletUnder(lines, c, j, k, current);
    assert current.text == FullText(lines, c);
    assert Wanted(lines, noise, c) <==> !noise(current.text);
    hide IsBulletUnder, IsBumpOf, FullText, HasHeadings;
    assert forall i :: c < i < n ==> !Wanted(lines, noise, i);
    assert forall i :: i in at + [c] <==> i in at || i == c;
    hide IsBulletAt, Wanted;
  }

  /** A bullet with the text of its own line. */
  function Begun(section: Heading, bump: string, line: Line): ParsedBullet
    requires line.Bullet?
  {
    ParsedBullet(section.packageName, section.version, bump, line.sha, line.text)
  }

  lemma Opened(lines: seq<Line>, noise: string -> bool, n: nat, bullets: seq<ParsedBullet>, at: seq<nat>,
               section: Heading, bump: string)
    requires n < |lines| && lines[n].Bullet? && HeadingsInForce(lines, n, Some(section), Some(bump))
    requires IsListing(lines, noise, n, bullets, at)
    ensures IsListingButOpen(lines, noise, n + 1, bullets, at, Some(Begun(section, bump, lines[n])), n)
  {
    var j: nat, k: nat :| IsBumpOf(lines, n, j, k)
      && section == Heading(lines[j].packageName, lines[j].version) && bump == lines[k].bump;
    assert IsBulletUnder(lines, n, j, k, Begun(section, bump, lines[n]).(text := FullText(lines, n)));
    hide IsListing;
  }

  lemma Continued(lines: seq<Line>, noise: string -> bool, n: nat, bullets: seq<ParsedBullet>, at: seq<nat>,
                  current: ParsedBullet, c: nat)
    requires n < |lines| && !EndsBullet(lines[n])
    requires IsListingButOpen(lines, noise, n, bullets, at, Some(current), c)
    ensures var more := if lines[n].Indented? then current.(text := current.text + (" " + lines[n].text)) else current;
      IsListingButOpen(lines, noise, n + 1, bullets, at, Some(more), c)
  {
    var rest := Continuation(lines, n + 1);
    if lines[n].Indented? {
      assert current.text + (" " + lines[n].text) + rest == current.text + ((" " + lines[n].text) + rest);
    } else {
      assert "" + rest == rest;
    }
    hide IsListing, IsBulletAt;
  }

  method ParseVersionPrBody(lines: seq<Line>, noise: string -> bool) returns (bullets: seq<ParsedBullet>)
    ensures AreBulletsOf(lines, noise, bullets)
  {
    bullets := [];
    ghost var at: seq<nat> := [];
    var section: Option<Heading> := None;
    var bump: Option<string> := None;
    var current: Option<ParsedBullet> := None;
    ghost var c := 0;
    for n := 0 to |lines|
      invariant HeadingsInForce(lines, n, section, bump)
      invariant current.Some? ==> section.Some? && bump.Some?
      invariant IsListingButOpen(lines, noise, n, bullets, at, current, c)
    {
      var line := lines[n];
      hide HeadingsInForce, IsListing, IsOpen, HasHeadings;
      if line.Section? {
        bullets, at := Flush(noise, bullets, current, lines, n, at, c);
        SectionRead(lines, n);
        current, section, bump := None, Some(Heading(line.packageName, line.version)), None;
        continue;
      }
      if line.Bump? {
        bullets, at := Flush(noise, bullets, current, lines, n, at, c);
        BumpRead(lines, n, section, bump);
        current, bump := None, Some(line.bump);
        continue;
      }
      NoHeadingRead(lines, n, section, bump);
      if section.None? || bump.None? {
        NothingInForce(lines, n, section, bump);
        continue;
      }
      if line.Bullet? {
        bullets, at := Flush(noise, bullets, current, lines, n, at, c);
        Opened(lines, noise, n, bullets, at, section.value, bump.value);
        current := Some(Begun(section.value, bump.value, line));
        c := n;
        continue;
      }
      if current.Some? {
        Continued(lines, noise, n, bullets, at, current.value, c);
        if line.Indented? {
          current := Some(current.value.(text := current.value.text + (" " + line.text)));
        }
      }
    }
    bullets, at := Flush(noise, bullets, current, lines, |lines|, at, c);
  }

  lemma NothingInForce(lines: seq<Line>, n: nat, section: Option<Heading>, bump: Option<string>)
    requires n <= |lines| && HeadingsInForce(lines, n, section, bump) && (section.None? || bump.None?)
    ensures !HasHeadings(lines, n)
  {
  }
}
