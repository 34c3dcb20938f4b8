/**
 * The clean-up of the model's reply before `JSON.parse` (server.js line 86):
 * `text.replace(/```json|```/g, '').trim()`.
 *
 * `StripFences` is the global replace: the regular expression is tried at each
 * position from left to right, its first alternative before its second, and the
 * scan resumes after each match. `Trim` is `String.prototype.trim`.
 */
module FenceSanitizer {

  const JsonFence := "```json"
  const Fence := "```"

  predicate StartsWith(s: string, prefix: string)
  {
    |prefix| <= |s| && s[..|prefix|] == prefix
  }

  /** The text starts with three backticks. */
  predicate AtFence(s: string)
  {
    |s| >= 3 && s[0] == '`' && s[1] == '`' && s[2] == '`'
  }

  /** The text starts with three backticks followed by `json`. */
  predicate AtJsonFence(s: string)
  {
    |s| >= 7 && AtFence(s) && s[3] == 'j' && s[4] == 's' && s[5] == 'o' && s[6] == 'n'
  }

  /** Whether the string holds three backticks in a row somewhere. */
  predicate ContainsFence(s: string)
    decreases |s|
  {
    |s| >= 3 && (AtFence(s) || ContainsFence(s[1..]))
  }

  /** `s.replace(/```json|```/g, '')`. */
  function StripFences(s: string): (r: string)
    ensures |r| <= |s|
    decreases |s|
  {
    if AtJsonFence(s) then StripFences(s[|JsonFence|..])
    else if AtFence(s) then StripFences(s[|Fence|..])
    else if s == [] then []
    else [s[0]] + StripFences(s[1..])
  }

  /** WhiteSpace and LineTerminator code points of ECMAScript, the set `trim` removes. */
  predicate IsWhitespace(c: char)
  {
    c == '\t' || c == '\n' || c == '\U{000B}' || c == '\U{000C}' || c == '\r' || c == ' ' ||
    c == '\U{00A0}' || c == '\U{1680}' || ('\U{2000}' <= c <= '\U{200A}') ||
    c == '\U{2028}' || c == '\U{2029}' || c == '\U{202F}' || c == '\U{205F}' ||
    c == '\U{3000}' || c == '\U{FEFF}'
  }

  /** Every character of `s` from `lo` up to `hi` is whitespace. */
  predicate WhitespaceBetween(s: string, lo: nat, hi: nat)
    requires lo <= hi <= |s|
  {
    forall k :: lo <= k < hi ==> IsWhitespace(s[k])
  }

  /** Neither the first nor the last character is whitespace. */
  predicate Trimmed(s: string)
  {
    s == [] || (!IsWhitespace(s[0]) && !IsWhitespace(s[|s| - 1]))
  }

  /** Where the text kept by `trim` starts, scanning forward from `i`: the first
      character that is not whitespace, or the end. */
  function TrimStartIndex(s: string, i: nat): (a: nat)
    requires i <= |s|
    ensures i <= a <= |s| && WhitespaceBetween(s, i, a)
    ensures a < |s| ==> !IsWhitespace(s[a])
    decreases |s| - i
  {
    if i < |s| && IsWhitespace(s[i]) then TrimStartIndex(s, i + 1) else i
  }

  /** Where the text kept by `trim` ends, scanning backward from `j` down to `lo`: just
      after the last character that is not whitespace, or `lo`. */
  function TrimEndIndex(s: string, lo: nat, j: nat): (b: nat)
    requires lo <= j <= |s|
    ensures lo <= b <= j && WhitespaceBetween(s, b, j)
    ensures b > lo ==> !IsWhitespace(s[b - 1])
    decreases j - lo
  {
    if j > lo && IsWhitespace(s[j - 1]) then TrimEndIndex(s, lo, j - 1) else j
  }

  /** `s.trim()`: the slice of `s` between its leading and its trailing whitespace. */
  function Trim(s: string): (r: string)
    ensures var a := TrimStartIndex(s, 0); var b := TrimEndIndex(s, a, |s|);
      WhitespaceBetween(s, 0, a) && WhitespaceBetween(s, b, |s|) && r == s[a..b]
    ensures Trimmed(r)
  {
    var a := TrimStartIndex(s, 0);
    var b := TrimEndIndex(s, a, |s|);
    assert a < b ==> s[a..b][0] == s[a] && s[a..b][b - a - 1] == s[b - 1];
    s[a..b]
  }

  /** The reply as handed to `JSON.parse`. */
  function Sanitize(text: string): string
  {
    Trim(StripFences(text))
  }

  /** The character tests of the scan are the tests for the two alternatives of the
      regular expression. */
  lemma FenceTests(s: string)
    ensures AtFence(s) <==> StartsWith(s, Fence)
    ensures AtJsonFence(s) <==> StartsWith(s, JsonFence)
  {
    if |s| >= 3 && StartsWith(s, Fence) {
      assert s[..3][1] == s[1] && s[..3][2] == s[2];
    }
    if |s| >= 7 && StartsWith(s, JsonFence) {
      assert s[..7][1] == s[1] && s[..7][2] == s[2] && s[..7][3] == s[3];
      assert s[..7][4] == s[4] && s[..7][5] == s[5] && s[..7][6] == s[6];
    }
  }

  /** A backtick kept by the scan is never followed by two more in the output. */
  lemma KeptBacktick(s: string)
    requires |s| > 0 && s[0] == '`' && !AtFence(s)
    ensures var r := StripFences(s[1..]); |r| < 2 || r[0] != '`' || r[1] != '`'
  {
    var t := s[1..];
    if |t| > 0 {
      assert t[0] == s[1];
      KeptFirst(t);
      if t[0] == '`' && |t| > 1 {
        var u := t[1..];
        assert u[0] == s[2];
        KeptFirst(u);
      }
    }
  }

  /** No fence survives the global replace, not even one made by joining what is left. */
  lemma {:induction false} StripLeavesNoFence(s: string)
    ensures !ContainsFence(StripFences(s))
    decreases |s|
  {
    if AtJsonFence(s) {
      StripLeavesNoFence(s[|JsonFence|..]);
    } else if AtFence(s) {
      StripLeavesNoFence(s[|Fence|..]);
    } else if s != [] {
      var rest := StripFences(s[1..]);
      StripLeavesNoFence(s[1..]);
      var r := [s[0]] + rest;
      assert StripFences(s) == r;
      assert r[1..] == rest;
      if s[0] == '`' {
        KeptBacktick(s);
      }
    }
  }

  /** The replace changes the text exactly when the text holds a fence. */
  lemma {:induction false} StripChangesIffFence(s: string)
    ensures StripFences(s) == s <==> !ContainsFence(s)
    ensures ContainsFence(s) ==> |StripFences(s)| < |s|
    decreases |s|
  {
    if !AtFence(s) && s != [] {
      StripChangesIffFence(s[1..]);
      KeptFirst(s);
    }
  }

  /** Stripping twice strips nothing more. */
  lemma StripIdempotent(s: string)
    ensures StripFences(StripFences(s)) == StripFences(s)
  {
    StripLeavesNoFence(s);
    StripChangesIffFence(StripFences(s));
  }

  /** Where ```json matches, the first alternative wins and the tag goes with the fence. */
  lemma JsonFenceRemovedWhole(t: string)
    ensures StripFences(JsonFence + t) == StripFences(t)
  {
    assert (JsonFence + t)[|JsonFence|..] == t;
  }

  /** A bare fence not followed by `json` is removed alone. */
  lemma BareFenceRemoved(t: string)
    requires !StartsWith(t, "json")
    ensures StripFences(Fence + t) == StripFences(t)
  {
    var s := Fence + t;
    assert s[3..] == t;
    if |s| >= 7 {
      assert t[..4] == [s[3], s[4], s[5], s[6]];
    }
  }

  /** A piece of a fence-free string is fence-free. */
  lemma {:induction false} NoFenceSlice(s: string, i: nat, j: nat)
    requires i <= j <= |s| && !ContainsFence(s)
    ensures !ContainsFence(s[i..j])
    decreases |s|
  {
    if i < j {
      var u := s[i..j];
      if i > 0 {
        assert s[1..][i - 1..j - 1] == u;
        NoFenceSlice(s[1..], i - 1, j - 1);
      } else if |u| >= 3 {
        assert s[1..][0..j - 1] == u[1..];
        NoFenceSlice(s[1..], 0, j - 1);
      }
    }
  }

  /** Trimming a string without surrounding whitespace leaves it as it is. */
  lemma TrimKeepsTrimmed(s: string)
    requires Trimmed(s)
    ensures Trim(s) == s
  {
    TrimUnique(s, 0, |s|);
  }

  /** The forward scan stops at the first character that is not whitespace. */
  lemma {:induction false} TrimStartIndexUnique(s: string, m: nat, i: nat)
    requires m <= i <= |s| && WhitespaceBetween(s, m, i) && (i == |s| || !IsWhitespace(s[i]))
    ensures TrimStartIndex(s, m) == i
    decreases i - m
  {
    if m < i {
      TrimStartIndexUnique(s, m + 1, i);
    }
  }

  /** The backward scan stops after the last character that is not whitespace. */
  lemma {:induction false} TrimEndIndexUnique(s: string, lo: nat, j: nat, m: nat)
    requires lo <= j <= m <= |s| && WhitespaceBetween(s, j, m) && (j == lo || !IsWhitespace(s[j - 1]))
    ensures TrimEndIndex(s, lo, m) == j
    decreases m - j
  {
    if j < m {
      TrimEndIndexUnique(s, lo, j, m - 1);
    }
  }

  /** Any split of `s` into whitespace, a trimmed middle and whitespace has `Trim(s)` as
      its middle: `trim` is fully determined by its contract. */
  lemma TrimUnique(s: string, i: nat, j: nat)
    requires i <= j <= |s|
    requires WhitespaceBetween(s, 0, i) && WhitespaceBetween(s, j, |s|) && Trimmed(s[i..j])
    ensures Trim(s) == s[i..j]
  {
    if i < j {
      assert s[i..j][0] == s[i];
      assert s[i..j][j - i - 1] == s[j - 1];
      TrimStartIndexUnique(s, 0, i);
      TrimEndIndexUnique(s, i, j, |s|);
    } else {
      TrimStartIndexUnique(s, 0, |s|);
      TrimEndIndexUnique(s, |s|, |s|, |s|);
    }
  }

  /** What reaches `JSON.parse` has no surrounding whitespace and no fence left in it. */
  lemma SanitizedShape(text: string)
    ensures Trimmed(Sanitize(text)) && !ContainsFence(Sanitize(text))
  {
    var stripped := StripFences(text);
    StripLeavesNoFence(text);
    var a := TrimStartIndex(stripped, 0);
    NoFenceSlice(stripped, a, TrimEndIndex(stripped, a, |stripped|));
  }

  /** A reply with no fence and no surrounding whitespace reaches `JSON.parse` unchanged. */
  lemma SanitizePassThrough(text: string)
    requires !ContainsFence(text) && Trimmed(text)
    ensures Sanitize(text) == text
  {
    StripChangesIffFence(text);
  }

  /** Sanitizing twice gives what sanitizing once gives. */
  lemma SanitizeIdempotent(text: string)
    ensures Sanitize(Sanitize(text)) == Sanitize(text)
  {
    SanitizedShape(text);
    SanitizePassThrough(Sanitize(text));
  }

  /** The fences of a JSON code block go and its body stays, whatever fence-free text the
      body is. */
  lemma StripCodeBlock(body: string)
    requires !ContainsFence(body)
    ensures StripFences(JsonFence + body + Fence) == body
  {
    JsonFenceRemovedWhole(body + Fence);
    assert JsonFence + body + Fence == JsonFence + (body + Fence);
    StripBeforeFence(body);
  }

  /** Fence-free text that does not end in a backtick is kept whole, and the scan goes on
      after it as if it were not there. */
  lemma {:induction false} KeepPrefix(pre: string, t: string)
    requires !ContainsFence(pre) && (pre == [] || pre[|pre| - 1] != '`')
    ensures StripFences(pre + t) == pre + StripFences(t)
    decreases |pre|
  {
    if pre != [] {
      var s := pre + t;
      assert !AtFence(s) by {
        var n := |pre|;
        if n >= 3 {
          assert s[0] == pre[0] && s[1] == pre[1] && s[2] == pre[2];
        } else if |s| >= 3 {
          assert s[n - 1] == pre[n - 1];
        }
      }
      KeptFirst(s);
      assert s[1..] == pre[1..] + t;
      NoFenceSlice(pre, 1, |pre|);
      KeepPrefix(pre[1..], t);
      assert pre == [pre[0]] + pre[1..];
    } else {
      assert pre + t == t;
    }
  }

  /** Three backticks in a row anywhere in the text are found by the fence test. */
  lemma {:induction false} FenceFound(s: string, i: nat)
    requires i + 3 <= |s| && s[i] == '`' && s[i + 1] == '`' && s[i + 2] == '`'
    ensures ContainsFence(s)
    decreases i
  {
    if i > 0 {
      FenceFound(s[1..], i - 1);
    }
  }

  /** Fence-free text followed by a closing fence loses only the fence. Its trailing
      backticks (at most two) merge with the fence, the scan removes the first three of
      them, and the same number is left. */
  lemma StripBeforeFence(body: string)
    requires !ContainsFence(body)
    ensures StripFences(body + Fence) == body
  {
    var n := |body|;
    if n == 0 || body[n - 1] != '`' {
      KeepBeforeTicks(body, "");
      assert body + "" == body;
    } else if n == 1 || body[n - 2] != '`' {
      var pre := body[..n - 1];
      assert body == pre + "`";
      NoFenceSlice(body, 0, n - 1);
      KeepBeforeTicks(pre, "`");
    } else {
      if n >= 3 && body[n - 3] == '`' {
        FenceFound(body, n - 3);
      }
      var pre := body[..n - 2];
      assert body == pre + "``";
      NoFenceSlice(body, 0, n - 2);
      KeepBeforeTicks(pre, "``");
    }
  }

  /** A kept prefix, then at most two backticks, then a closing fence: the fence goes. */
  lemma KeepBeforeTicks(pre: string, ticks: string)
    requires !ContainsFence(pre) && (pre == [] || pre[|pre| - 1] != '`')
    requires ticks == "" || ticks == "`" || ticks == "``"
    ensures StripFences(pre + ticks + Fence) == pre + ticks
  {
    assert pre + ticks + Fence == pre + (ticks + Fence);
    KeepPrefix(pre, ticks + Fence);
    StripTicks(ticks);
  }

  /** Three to five backticks in a row: the first three go. */
  lemma StripTicks(ticks: string)
    requires ticks == "" || ticks == "`" || ticks == "``"
    ensures StripFences(ticks + Fence) == ticks
  {
    var s := ticks + Fence;
    assert s[3..] == ticks;
    if ticks != "" {
      KeptFirst(ticks);
      if ticks == "``" {
        KeptFirst(ticks[1..]);
      }
    }
  }

  /** Text that does not start with a fence keeps its first character. */
  lemma KeptFirst(s: string)
    requires |s| > 0 && !AtFence(s)
    ensures StripFences(s) == [s[0]] + StripFences(s[1..])
  {
  }

  /** Text without a backtick holds no fence. */
  lemma {:induction false} NoBacktickNoFence(s: string)
    requires forall k :: 0 <= k < |s| ==> s[k] != '`'
    ensures !ContainsFence(s)
    decreases |s|
  {
    if |s| >= 3 {
      assert s[..3][0] == s[0];
      NoBacktickNoFence(s[1..]);
    }
  }

  /** Surrounding line breaks are trimmed away. */
  lemma TrimLineBreaks(json: string)
    requires Trimmed(json)
    ensures Trim("\n" + json + "\n") == json
  {
    var s := "\n" + json + "\n";
    var n := |json|;
    assert s[0] == '\n' && s[n + 1] == '\n' && s[1..n + 1] == json;
    TrimUnique(s, 1, n + 1);
  }

  /** A reply fenced as a JSON code block is reduced to the JSON inside it. */
  lemma SanitizeCodeBlock()
    ensures Sanitize("```json\n{\"a\":1}\n```") == "{\"a\":1}"
  {
    var json := "{\"a\":1}";
    var body := "\n" + json + "\n";
    NoBacktickNoFence(body);
    assert "```json\n{\"a\":1}\n```" == JsonFence + body + Fence;
    StripCodeBlock(body);
    assert Trimmed(json) by {
      assert json[0] == '{' && json[|json| - 1] == '}';
    }
    TrimLineBreaks(json);
  }
}
