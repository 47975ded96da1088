/** Telling a delivered body that is only its brief echoed back from one that says something. */
module Echo {
  import opened Basics

  const TRIM: nat := 16
  const MIN_FLAT: nat := 120

  function Lower(c: char): char {
    if 'A' <= c <= 'Z' then (c as int + 32) as char else c
  }

  /** Whitespace-free and lowered. */
  function Flat(s: string): string {
    if s == [] then [] else (if IsSpace(s[0]) then [] else [Lower(s[0])]) + Flat(s[1..])
  }

  lemma {:induction false} FlatConcat(a: string, b: string)
    ensures Flat(a + b) == Flat(a) + Flat(b)
  {
    if a == [] {
      assert a + b == b;
    } else {
      assert (a + b)[1..] == a[1..] + b;
      FlatConcat(a[1..], b);
    }
  }

  /** Flattening drops whitespace wherever it stands, takes capital letters for small ones, and keeps
      every other character. */
  lemma {:induction false} FlatIgnores(a: string, c: char, b: string)
    ensures IsSpace(c) ==> Flat(a + [c] + b) == Flat(a + b)
    ensures 'A' <= c <= 'Z' ==> Flat(a + [c] + b) == Flat(a + [(c as int + 32) as char] + b)
    ensures !IsSpace(c) && !('A' <= c <= 'Z') ==> Flat(a + [c] + b) == Flat(a) + [c] + Flat(b)
  {
    FlatConcat(a, b);
    FlatThree(a, [c], b);
    FlatOne(c);
    var small := if 'A' <= c <= 'Z' then (c as int + 32) as char else c;
    FlatThree(a, [small], b);
    FlatOne(small);
    SmallIsNoSpace(c);
    hide Flat, IsSpace;
    assert Flat(a) + [] == Flat(a);
  }

  lemma {:induction false} SmallIsNoSpace(c: char)
    ensures 'A' <= c <= 'Z' ==> !IsSpace(c) && !IsSpace((c as int + 32) as char)
  {
  }

  lemma {:induction false} FlatOne(c: char)
    ensures Flat([c]) == if IsSpace(c) then [] else [Lower(c)]
  {
    assert [c][1..] == [] && Flat([]) == [];
  }

  predicate OccursAt(text: string, part: string, k: int) {
    0 <= k && k + |part| <= |text| && forall i :: 0 <= i < |part| ==> part[i] == text[k + i]
  }

  predicate Contains(text: string, part: string) {
    exists k | 0 <= k <= |text| :: OccursAt(text, part, k)
  }

  /** What contains a text contains its slices. */
  lemma {:induction false} ContainsSlice(text: string, part: string, i: nat, j: nat)
    requires Contains(text, part) && i <= j <= |part|
    ensures Contains(text, part[i..j])
  {
    var k :| 0 <= k <= |text| && OccursAt(text, part, k);
    var slice := part[i..j];
    forall n | 0 <= n < |slice| ensures slice[n] == text[k + i + n] {
      assert slice[n] == part[i + n];
    }
    assert OccursAt(text, slice, k + i);
  }

  /** A text with a character that the other lacks does not occur in it. */
  lemma {:induction false} ForeignIsAbsent(text: string, part: string, i: nat)
    requires i < |part| && part[i] !in text
    ensures !Contains(text, part)
  {
  }

  /** The single test: the body less sixteen characters at each end occurs in the brief. */
  ghost predicate EchoTest(body: string, brief: string) {
    |body| >= 120 && |brief| >= 120 && Contains(brief, body[16..|body| - 16])
  }

  /** Some trimming of up to sixteen characters at each end occurs in the brief. */
  ghost predicate TrimmedFits(body: string, brief: string, lead: nat, tail: nat) {
    lead + tail <= |body| && Contains(brief, body[lead..|body| - tail])
  }

  lemma {:induction false} TrimMoreStillFits(body: string, brief: string, lead: nat, tail: nat)
    requires |body| >= MIN_FLAT && lead <= TRIM && tail <= TRIM && TrimmedFits(body, brief, lead, tail)
    ensures TrimmedFits(body, brief, TRIM, TRIM)
  {
    var core := body[lead..|body| - tail];
    ContainsSlice(brief, core, TRIM - lead, |body| - TRIM - lead);
    SliceOfSlice(body, lead, |body| - tail, TRIM, |body| - TRIM);
  }

  lemma {:induction false} SliceOfSlice(s: string, a: nat, b: nat, i: nat, j: nat)
    requires a <= i <= j <= b <= |s|
    ensures s[a..b][i - a..j - a] == s[i..j]
  {
    forall n | 0 <= n < j - i ensures s[a..b][i - a..j - a][n] == s[i..j][n] {
      assert s[a..b][i - a + n] == s[i + n];
    }
  }

  /** The search over every trimming at both ends decides the single test. */
  method IsEchoOfBrief(content: string, briefText: string) returns (echo: bool)
    ensures echo <==> EchoTest(Flat(content), Flat(briefText))
  {
    var cb, cr := Flat(briefText), Flat(content);
    if |cr| < MIN_FLAT || |cb| < MIN_FLAT {
      return false;
    }
    for lead := 0 to TRIM + 1
      invariant forall l, t :: 0 <= l < lead && 0 <= t <= TRIM ==> !TrimmedFits(cr, cb, l, t)
    {
      var head := cr[lead..];
      if head == [] {
        break;
      }
      for tail := 0 to TRIM + 1
        invariant forall t :: 0 <= t < tail ==> !TrimmedFits(cr, cb, lead, t)
      {
        var core := if tail > 0 then head[..|head| - tail] else head;
        assert core == cr[lead..|cr| - tail];
        if core != [] && Contains(cb, core) {
          assert TrimmedFits(cr, cb, lead, tail);
          TrimMoreStillFits(cr, cb, lead, tail);
          return true;
        }
      }
    }
    assert !TrimmedFits(cr, cb, TRIM, TRIM);
    return false;
  }

  /** A piece of the brief with at most sixteen characters of junk at each end is always caught. */
  lemma {:induction false} SlicesAreCaught(before: string, piece: string, after: string, left: string, right: string)
    requires |Flat(before)| <= TRIM && |Flat(after)| <= TRIM
    requires |Flat(before + piece + after)| >= MIN_FLAT && |Flat(left + piece + right)| >= MIN_FLAT
    ensures EchoTest(Flat(before + piece + after), Flat(left + piece + right))
  {
    var b, p, a, l, r := Flat(before), Flat(piece), Flat(after), Flat(left), Flat(right);
    var body, brief := b + p + a, l + p + r;
    FlatThree(before, piece, after);
    FlatThree(left, piece, right);
    hide Flat;
    forall n | 0 <= n < |p| ensures p[n] == brief[|l| + n] {
    }
    assert OccursAt(brief, p, |l|) && Contains(brief, p);
    hide OccursAt, Contains;
    ContainsSlice(brief, p, TRIM - |b|, |body| - TRIM - |b|);
    assert body[|b|..|b| + |p|] == p;
    SliceOfSlice(body, |b|, |b| + |p|, TRIM, |body| - TRIM);
  }

  lemma {:induction false} FlatThree(a: string, b: string, c: string)
    ensures Flat(a + b + c) == Flat(a) + Flat(b) + Flat(c)
  {
    FlatConcat(a + b, c);
    FlatConcat(a, b);
  }

  /** One foreign character away from both ends and the body is not an echo. */
  lemma {:induction false} ForeignCharacterClears(before: string, c: char, after: string, briefText: string)
    requires !IsSpace(c) && Lower(c) !in Flat(briefText)
    requires |Flat(before)| >= TRIM && |Flat(after)| >= TRIM
    ensures !EchoTest(Flat(before + [c] + after), Flat(briefText))
  {
    var b, a, brief := Flat(before), Flat(after), Flat(briefText);
    FlatThree(before, [c], after);
    assert Flat([c]) == [Lower(c)] + Flat([c][1..]) == [Lower(c)];
    var body := b + [Lower(c)] + a;
    var core := body[TRIM..|body| - TRIM];
    assert core[|b| - TRIM] == body[|b|] == Lower(c);
    ForeignIsAbsent(brief, core, |b| - TRIM);
  }

  /** Original prose put before a whole brief clears the body exactly when it is longer than the
      trimming: shorter prose is discarded with the trim, whatever it says. */
  lemma {:induction false} ProseBeforeBrief(prose: string, briefText: string)
    requires |Flat(briefText)| >= MIN_FLAT
    requires forall i :: 0 <= i < |Flat(prose)| ==> Flat(prose)[i] !in Flat(briefText)
    ensures EchoTest(Flat(prose + briefText), Flat(briefText)) <==> |Flat(prose)| <= TRIM
  {
    var p, brief := Flat(prose), Flat(briefText);
    FlatConcat(prose, briefText);
    var body := p + brief;
    var core := body[TRIM..|body| - TRIM];
    if |p| <= TRIM {
      forall n | 0 <= n < |core| ensures core[n] == brief[TRIM - |p| + n] {
        assert core[n] == body[TRIM + n];
      }
      assert OccursAt(brief, core, TRIM - |p|);
    } else {
      assert core[0] == body[TRIM] == p[TRIM];
      ForeignIsAbsent(brief, core, 0);
    }
  }
}
