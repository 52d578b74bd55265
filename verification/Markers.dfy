/**
 The marker a publish statement carries: its run and target in a leading comment and as query tags.
 A run identity has letters and digits of hexadecimal numbers and dashes; a target marker is a
 hexadecimal digest.
 */
module Markers {
  import opened Wrappers

  predicate IsHex(c: char) { '0' <= c <= '9' || 'a' <= c <= 'f' || 'A' <= c <= 'F' }

  predicate ValidRun(run: string) {
    20 <= |run| <= 40 && forall i :: 0 <= i < |run| ==> IsHex(run[i]) || run[i] == '-'
  }

  /** A run identity is twenty to forty characters of hexadecimal numbers and dashes. */
  lemma ValidRunExactly(run: string)
    ensures ValidRun(run) <==>
            20 <= |run| <= 40 && forall i :: 0 <= i < |run| ==> run[i] in "0123456789abcdefABCDEF-"
  {
    forall c: char ensures IsHex(c) || c == '-' <==> c in "0123456789abcdefABCDEF-" { HexDigits(c); }
  }

  lemma HexDigits(c: char)
    ensures IsHex(c) || c == '-' <==> c in "0123456789abcdefABCDEF-"
  {
    var all := "0123456789abcdefABCDEF-";
    if '0' <= c <= '9' { assert all[c as int - '0' as int] == c; }
    if 'a' <= c <= 'f' { assert all[10 + c as int - 'a' as int] == c; }
    if 'A' <= c <= 'F' { assert all[16 + c as int - 'A' as int] == c; }
    if c == '-' { assert all[22] == c; }
  }

  predicate ValidTarget(target: string) { |target| == 64 && forall i :: 0 <= i < |target| ==> IsHex(target[i]) }

  function Marker(run: string, target: string): string { "datamover-run:" + run + ";target:" + target }

  function PublishText(run: string, target: string, body: string): string {
    "/* " + Marker(run, target) + " */ " + body
  }

  predicate OccursAt(part: string, text: string, i: int) {
    0 <= i <= |text| - |part| && text[i..i + |part|] == part
  }

  /** `part in text` */
  predicate Contains(text: string, part: string) {
    exists i :: 0 <= i <= |text| - |part| && OccursAt(part, text, i)
  }

  lemma ContainsExactly(text: string, part: string)
    ensures Contains(text, part) <==> exists before, after :: text == before + part + after
  {
    if Contains(text, part) {
      var i :| 0 <= i <= |text| - |part| && OccursAt(part, text, i);
      assert text == text[..i] + part + text[i + |part|..];
    }
    if before, after :| text == before + part + after {
      assert text[|before|..|before| + |part|] == part;
      assert OccursAt(part, text, |before|);
    }
  }

  lemma CharAt(part: string, text: string, i: int, k: int)
    requires OccursAt(part, text, i) && 0 <= k < |part|
    ensures text[i + k] == part[k]
  {
    assert text[i..i + |part|][k] == part[k];
  }

  /** The text of a publish statement contains its own marker. */
  lemma OwnMarkerOccurs(run: string, target: string, body: string)
    ensures Contains(PublishText(run, target, body), Marker(run, target))
  {
    var text, m := PublishText(run, target, body), Marker(run, target);
    assert text == "/* " + m + (" */ " + body);
    assert text[3..3 + |m|] == m;
    assert OccursAt(m, text, 3);
  }

  // ----- Where a marker can occur -----

  /** The characters of a publish statement, part by part. */
  lemma Layout(run: string, target: string, body: string)
    requires ValidRun(run) && ValidTarget(target)
    ensures var text, r := PublishText(run, target, body), |run|;
            && |text| == 17 + r + 8 + 64 + 4 + |body|
            && OccursAt("/* datamover-run:", text, 0)
            && (forall k :: 0 <= k < r ==> text[17 + k] == run[k])
            && OccursAt(";target:", text, 17 + r)
            && (forall k :: 0 <= k < 64 ==> text[25 + r + k] == target[k])
            && OccursAt(" */ ", text, 89 + r)
            && text[93 + r..] == body
  {
    var text, r := PublishText(run, target, body), |run|;
    assert text == "/* datamover-run:" + run + ";target:" + target + " */ " + body;
  }

  predicate SpellsDat(text: string, i: int)
    requires 0 <= i && i + 2 < |text|
  {
    text[i] == 'd' && text[i + 1] == 'a' && text[i + 2] == 't'
  }

  /** Before its body, a publish statement spells "dat" at its own marker only. */
  lemma SpellsDatOnce(run: string, target: string, body: string, i: int)
    requires ValidRun(run) && ValidTarget(target) && 0 <= i < 93 + |run| && i != 3
    requires i + 2 < |PublishText(run, target, body)|
    ensures !SpellsDat(PublishText(run, target, body), i)
  {
    var text, r := PublishText(run, target, body), |run|;
    Layout(run, target, body);
    if i < 17 {
      InLiteral(text, "/* datamover-run:", 0, i);
    } else if i < 17 + r {
      InRun(text, run, i, r);
    } else if i < 25 + r {
      InLiteral(text, ";target:", 17 + r, i);
    } else if i < 89 + r {
      InTarget(text, target, i, r);
    } else {
      InLiteral(text, " */ ", 89 + r, i);
    }
  }

  /** A marker can begin only where the statement's own marker does, or within the statement proper. */
  lemma BeginsAtOwnOrInBody(run: string, target: string, body: string, part: string, i: int)
    requires ValidRun(run) && ValidTarget(target) && |part| >= 14 && part[..14] == "datamover-run:"
    requires OccursAt(part, PublishText(run, target, body), i)
    ensures i == 3 || i >= 93 + |run|
  {
    var text := PublishText(run, target, body);
    assert part[0] == part[..14][0] && part[1] == part[..14][1] && part[2] == part[..14][2];
    CharAt(part, text, i, 0);
    CharAt(part, text, i, 1);
    CharAt(part, text, i, 2);
    assert SpellsDat(text, i);
    if i != 3 && i < 93 + |run| { SpellsDatOnce(run, target, body, i); }
  }

  lemma InLiteral(text: string, part: string, start: int, i: int)
    requires OccursAt(part, text, start) && start <= i < start + |part|
    ensures text[i] == part[i - start]
  {
    CharAt(part, text, start, i - start);
  }

  lemma InRun(text: string, run: string, i: int, r: int)
    requires r == |run| && ValidRun(run) && |text| >= 25 + r && 17 <= i < 17 + r
    requires forall k :: 0 <= k < r ==> text[17 + k] == run[k]
    requires OccursAt(";target:", text, 17 + r)
    ensures text[i + 1] != 'a' || text[i + 2] != 't'
  {
    InLiteral(text, ";target:", 17 + r, 17 + r);
    InLiteral(text, ";target:", 17 + r, 18 + r);
    if i + 2 < 17 + r {
      assert text[17 + (i - 15)] == run[i - 15];
    }
  }

  lemma InTarget(text: string, target: string, i: int, r: int)
    requires ValidTarget(target) && r >= 0 && |text| >= 93 + r && 25 + r <= i < 89 + r
    requires forall k :: 0 <= k < 64 ==> text[25 + r + k] == target[k]
    requires OccursAt(" */ ", text, 89 + r)
    ensures text[i + 1] != 'a' || text[i + 2] != 't'
  {
    InLiteral(text, " */ ", 89 + r, 89 + r);
    InLiteral(text, " */ ", 89 + r, 90 + r);
    if i + 2 < 89 + r {
      assert text[25 + r + (i - 23 - r)] == target[i - 23 - r];
    }
  }

  /** The characters of a marker, part by part. */
  lemma MarkerLayout(run: string, target: string)
    requires ValidTarget(target)
    ensures var m, r := Marker(run, target), |run|;
            && |m| == 86 + r && m[14 + r] == ';'
            && (forall k :: 0 <= k < r ==> m[14 + k] == run[k])
            && (forall k :: 0 <= k < 64 ==> m[22 + r + k] == target[k])
  {
  }

  /** Two markers at the same place are the same. */
  lemma SameMarker(run: string, target: string, body: string, run': string, target': string)
    requires ValidRun(run) && ValidTarget(target) && ValidRun(run') && ValidTarget(target')
    requires OccursAt(Marker(run', target'), PublishText(run, target, body), 3)
    ensures run == run' && target == target'
  {
    var text, m, r := PublishText(run, target, body), Marker(run', target'), |run|;
    Layout(run, target, body);
    MarkerLayout(run', target');
    assert r == |run'| by { if r != |run'| { LengthsDiffer(run, target, body, run', target'); } }
    forall k | 0 <= k < r ensures run[k] == run'[k] {
      CharAt(m, text, 3, 14 + k);
      assert text[17 + k] == run[k] && m[14 + k] == run'[k];
    }
    assert run == run';
    SameTarget(run, target, body, target');
  }

  lemma SameTarget(run: string, target: string, body: string, target': string)
    requires ValidRun(run) && ValidTarget(target) && ValidTarget(target')
    requires OccursAt(Marker(run, target'), PublishText(run, target, body), 3)
    ensures target == target'
  {
    var text, m, r := PublishText(run, target, body), Marker(run, target'), |run|;
    Layout(run, target, body);
    MarkerLayout(run, target');
    forall k | 0 <= k < 64 ensures target[k] == target'[k] {
      CharAt(m, text, 3, 22 + r + k);
      assert text[25 + r + k] == target[k] && m[22 + r + k] == target'[k];
    }
    assert target == target';
  }

  /** The semicolon after the run identity is at the same place in both. */
  lemma LengthsDiffer(run: string, target: string, body: string, run': string, target': string)
    requires ValidRun(run) && ValidTarget(target) && ValidRun(run') && ValidTarget(target')
    requires |run| != |run'|
    ensures !OccursAt(Marker(run', target'), PublishText(run, target, body), 3)
  {
    Layout(run, target, body);
    MarkerLayout(run', target');
    SemicolonsClash(PublishText(run, target, body), Marker(run', target'), run, run');
  }

  lemma SemicolonsClash(text: string, m: string, run: string, run': string)
    requires ValidRun(run) && ValidRun(run') && |run| != |run'|
    requires |text| >= 25 + |run| && OccursAt(";target:", text, 17 + |run|)
    requires forall k :: 0 <= k < |run| ==> text[17 + k] == run[k]
    requires |m| >= 15 + |run'| && m[14 + |run'|] == ';'
    requires forall k :: 0 <= k < |run'| ==> m[14 + k] == run'[k]
    ensures !OccursAt(m, text, 3)
  {
    var least := Shorter(|run|, |run'|);
    InLiteral(text, ";target:", 17 + |run|, 17 + |run|);
    if |run| < |run'| {
      assert m[14 + least] == run'[least];
    } else {
      assert text[17 + least] == run[least];
    }
    if OccursAt(m, text, 3) { CharAt(m, text, 3, 14 + least); }
  }

  function Shorter(a: nat, b: nat): nat { if a < b then a else b }

  /**
   The text of one publish statement contains the marker of a run and target exactly when they are
   its own, or its body spells that marker out.
   */
  lemma MarkerOccursExactly(run: string, target: string, body: string, run': string, target': string)
    requires ValidRun(run) && ValidTarget(target) && ValidRun(run') && ValidTarget(target')
    ensures Contains(PublishText(run, target, body), Marker(run', target')) <==>
            (run == run' && target == target') || Contains(body, Marker(run', target'))
  {
    var text, m := PublishText(run, target, body), Marker(run', target');
    if run == run' && target == target' { OwnMarkerOccurs(run, target, body); }
    if Contains(body, m) { InBodyOccurs(run, target, body, m); }
    if Contains(text, m) {
      var i :| 0 <= i <= |text| - |m| && OccursAt(m, text, i);
      assert m[..14] == "datamover-run:";
      BeginsAtOwnOrInBody(run, target, body, m, i);
      if i == 3 {
        SameMarker(run, target, body, run', target');
      } else {
        OccursInBody(run, target, body, m, i);
      }
    }
  }

  lemma InBodyOccurs(run: string, target: string, body: string, part: string)
    requires ValidRun(run) && ValidTarget(target) && Contains(body, part)
    ensures Contains(PublishText(run, target, body), part)
  {
    var text, start := PublishText(run, target, body), 93 + |run|;
    Layout(run, target, body);
    var i :| 0 <= i <= |body| - |part| && OccursAt(part, body, i);
    assert text[start + i..start + i + |part|] == text[start..][i..i + |part|];
    assert OccursAt(part, text, start + i);
  }

  lemma OccursInBody(run: string, target: string, body: string, part: string, i: int)
    requires ValidRun(run) && ValidTarget(target) && i >= 93 + |run|
    requires OccursAt(part, PublishText(run, target, body), i)
    ensures Contains(body, part)
  {
    var text, start := PublishText(run, target, body), 93 + |run|;
    Layout(run, target, body);
    assert text[start..][i - start..i - start + |part|] == text[i..i + |part|];
    assert OccursAt(part, body, i - start);
  }
}
