/** Recovering the JSON object from the language model's reply: the reply is stripped
    and, when it wraps the object in a Markdown code fence, the fenced text is kept. */
module Fence {
  import opened Wrappers
  import opened Text

  const Ticks: string := "```"
  const JsonFence: string := "```json"

  /** The text handed to the JSON decoder. */
  function ExtractJson(content: string): (r: string)
    ensures !Contains(r, Ticks)
  {
    var t := Strip(content);
    if Contains(t, JsonFence) then Split(Split(t, JsonFence)[1], Ticks)[0]
    else if Contains(t, Ticks) then Split(Split(t, Ticks)[1], Ticks)[0]
    else t
  }

  /** A "```json" fence is also a "```" fence. */
  lemma JsonFenceIsFence(s: string)
    requires Contains(s, JsonFence)
    ensures Contains(s, Ticks)
  {
    var j :| 0 <= j <= |s| && OccursAt(s, JsonFence, j);
    assert JsonFence == Ticks + "json";
    OccursPrefixOfPattern(s, Ticks, "json", j);
  }

  /** Without any fence in the reply, the decoder gets the stripped reply. */
  lemma ExtractUnfenced(content: string)
    requires !Contains(content, Ticks)
    ensures ExtractJson(content) == Strip(content)
  {
    ContainsStripped(content, Ticks);
    if Contains(Strip(content), JsonFence) {
      JsonFenceIsFence(Strip(content));
    }
  }

  /** With a plain fence and no "```json" fence, the decoder gets the text between the
      first two fences (up to the end when the fence is not closed). */
  lemma ExtractPlainFence(content: string)
    requires Contains(content, Ticks) && !Contains(content, JsonFence)
    ensures var t := Strip(content);
      Contains(t, Ticks) && ExtractJson(content) == Cut(After(t, Ticks), Ticks)
  {
    ContainsStripped(content, Ticks);
    ContainsStripped(content, JsonFence);
    var t := Strip(content);
    SplitSecond(t, Ticks);
  }

  /** With a "```json" fence, the decoder gets a prefix of the text after the first
      "```json": all of it when no "```" follows, and the text up to the next "```"
      exactly when no "```json" starts one or two characters after that fence (in
      particular whenever no fourth backtick follows the fence). */
  lemma ExtractJsonFence(content: string)
    requires Contains(content, JsonFence)
    ensures var t := Strip(content);
      Contains(t, JsonFence)
      && var u := After(t, JsonFence);
         var r := ExtractJson(content);
         r == u[..|r|]
         && (IndexOf(u, Ticks).None? ==> r == u)
         && (IndexOf(u, Ticks).Some?
             ==> (r == Cut(u, Ticks) <==> !OverlapsFence(u, IndexOf(u, Ticks).value)))
         && (IndexOf(u, Ticks).Some? && !OccursAt(u, "````", IndexOf(u, Ticks).value)
             ==> r == Cut(u, Ticks))
  {
    ContainsStripped(content, JsonFence);
    var t := Strip(content);
    var u := After(t, JsonFence);
    SplitSecond(t, JsonFence);
    assert ExtractJson(content) == Cut(Cut(u, JsonFence), Ticks);
    CutOfJsonCut(u);
  }

  /** A "```json" starts one or two characters after the fence at `m`, overlapping it. */
  predicate OverlapsFence(u: string, m: nat) {
    OccursAt(u, JsonFence, m + 1) || OccursAt(u, JsonFence, m + 2)
  }

  /** The heart of `ExtractJsonFence`: cutting at the next "```json" and then at "```"
      gives the text up to the next "```" exactly when no "```json" overlaps that fence. */
  lemma CutOfJsonCut(u: string)
    ensures var r := Cut(Cut(u, JsonFence), Ticks);
      r == u[..|r|]
      && (IndexOf(u, Ticks).None? ==> r == u)
      && (IndexOf(u, Ticks).Some?
          ==> (r == Cut(u, Ticks) <==> !OverlapsFence(u, IndexOf(u, Ticks).value)))
      && (IndexOf(u, Ticks).Some? && !OccursAt(u, "````", IndexOf(u, Ticks).value)
          ==> r == Cut(u, Ticks))
  {
    var v := Cut(u, JsonFence);
    match IndexOf(u, Ticks)
    case None =>
      if Contains(u, JsonFence) { JsonFenceIsFence(u); }
    case Some(m) =>
      if OverlapsFence(u, m) {
        OverlappingFences(u, m, if OccursAt(u, JsonFence, m + 1) then m + 1 else m + 2);
      }
      if Contains(u, JsonFence) {
        var k := IndexOf(u, JsonFence).value;
        assert v == u[..k];
        assert JsonFence == Ticks + "json";
        OccursPrefixOfPattern(u, Ticks, "json", k);
        assert k >= m;
        if k == m + 1 || k == m + 2 {
          forall j | 0 <= j <= |v| ensures !OccursAt(v, Ticks, j) {
            OccursInSlice(u, 0, k, Ticks, j);
          }
          assert Cut(v, Ticks) == v;
        } else {
          if k == m {
            JsonFenceNotNear(u, m);
            assert v == Cut(u, Ticks);
          } else {
            OccursInSlice(u, 0, k, Ticks, m);
            forall j | 0 <= j < m ensures !OccursAt(v, Ticks, j) {
              OccursInSlice(u, 0, k, Ticks, j);
            }
            IndexOfFirst(v, Ticks, m);
          }
        }
      }
  }

  /** Two "```json" fences cannot start one or two characters apart. */
  lemma JsonFenceNotNear(u: string, m: nat)
    requires OccursAt(u, JsonFence, m)
    ensures !OverlapsFence(u, m)
  {
    JsonFenceChar(u, m, 3);
    if OccursAt(u, JsonFence, m + 1) {
      JsonFenceChar(u, m + 1, 2);
    }
    if OccursAt(u, JsonFence, m + 2) {
      JsonFenceChar(u, m + 2, 1);
    }
  }

  /** The characters of a "```json" fence, one by one. */
  lemma JsonFenceChar(u: string, k: nat, i: nat)
    requires OccursAt(u, JsonFence, k) && i < 7
    ensures u[k + i] == JsonFence[i]
  {
    assert u[k + i] == u[k..k + 7][i];
  }

  /** The fourth-backtick condition of `ExtractJsonFence` is needed: in "```json````json"
      the next "```" starts right after the first fence, yet the decoder gets "`", because
      the reply is first split at "```json" and only then at "```". */
  lemma FourthBacktickReply(t: string)
    requires t == "```json````json"
    ensures Contains(t, JsonFence) && After(t, JsonFence) == "````json"
    ensures Cut("````json", Ticks) == ""
    ensures ExtractJson(t) == "`"
  {
    StripOfFenced(t);
    assert OccursAt(t, JsonFence, 0);
    IndexOfFirst(t, JsonFence, 0);
    var u := After(t, JsonFence);
    assert u == t[7..];
    SplitSecond(t, JsonFence);
    CutOfFourTicks(u);
    assert !Contains("`", Ticks);
  }

  lemma StripOfFenced(t: string)
    requires t == "```json````json"
    ensures Strip(t) == t
  {
  }

  lemma CutOfFourTicks(u: string)
    requires u == "````json"
    ensures Cut(u, JsonFence) == "`" && Cut(u, Ticks) == ""
  {
    assert u[0..7] != JsonFence by { assert u[0..7][3] == '`'; }
    assert !OccursAt(u, JsonFence, 0);
    assert OccursAt(u, JsonFence, 1) by { assert u[1..8] == JsonFence; }
    IndexOfFirst(u, JsonFence, 1);
    assert OccursAt(u, Ticks, 0) by { assert u[0..3] == Ticks; }
    IndexOfFirst(u, Ticks, 0);
  }

  /** A "```json" that starts after the first "```" at `m`, when `u` has no four
      backticks at `m`, cannot overlap that fence. */
  lemma JsonFenceAfterFence(u: string, m: nat, k: nat)
    requires OccursAt(u, Ticks, m) && OccursAt(u, JsonFence, k) && m <= k
    requires !OccursAt(u, "````", m)
    ensures k == m || k >= m + 3
  {
    if m < k < m + 3 {
      OverlappingFences(u, m, k);
    }
  }

  /** A "```json" starting one or two places after a "```" makes four backticks. */
  lemma OverlappingFences(u: string, m: nat, k: nat)
    requires OccursAt(u, Ticks, m) && OccursAt(u, JsonFence, k) && m < k < m + 3
    ensures OccursAt(u, "````", m)
  {
    assert u[m + 3] == u[k..k + 7][m + 3 - k] == '`';
    assert u[m..m + 4] == u[m..m + 3] + [u[m + 3]];
  }
}
