/** The text form of a signature as LibTrace writes it into Signatures.json:
    one two-character token per byte, separated by single spaces, `??` for a
    wildcard byte and two upper-case hexadecimal digits otherwise. `Parse` is
    the inverse of `Render` on that format (the host's own pattern syntax,
    which accepts more, is not modelled). */
module SignatureText {
  import opened Common
  import opened Pattern

  predicate IsUpperHex(c: char) {
    '0' <= c <= '9' || 'A' <= c <= 'F'
  }

  function HexDigit(d: nat): (c: char)
    requires d < 16
    ensures IsUpperHex(c)
  {
    if d < 10 then (d + '0' as int) as char else (d - 10 + 'A' as int) as char
  }

  function HexValue(c: char): (r: Option<nat>)
    ensures r.Some? <==> IsUpperHex(c)
    ensures r.Some? ==> r.value < 16 && HexDigit(r.value) == c
  {
    if '0' <= c <= '9' then Some(c as int - '0' as int)
    else if 'A' <= c <= 'F' then Some(c as int - 'A' as int + 10)
    else None
  }

  /** The text of one token. A byte is printed with `std::uppercase`,
      `std::hex`, `std::setw(2)` and `std::setfill('0')`: exactly two
      upper-case digits whose value is the byte. */
  function TokenText(t: PatByte): (s: string)
    ensures |s| == 2
    ensures t.Any? <==> s == "??"
    ensures t.Exact? ==> IsUpperHex(s[0]) && IsUpperHex(s[1])
    ensures t.Exact? ==> HexValue(s[0]).value * 16 + HexValue(s[1]).value == t.b
  {
    match t
    case Any => "??"
    case Exact(b) => [HexDigit(b / 16), HexDigit(b % 16)]
  }

  function ParseToken(s: string): Option<PatByte>
    requires |s| == 2
  {
    if s == "??" then Some(Any)
    else match (HexValue(s[0]), HexValue(s[1]))
      case (Some(h), Some(l)) => Some(Exact(h * 16 + l))
      case _ => None
  }

  lemma ParseTokenText(t: PatByte)
    ensures ParseToken(TokenText(t)) == Some(t)
  {
  }

  /** Tokens joined by single spaces, with no leading or trailing space. */
  function Render(ts: seq<PatByte>): string {
    if |ts| == 0 then ""
    else if |ts| == 1 then TokenText(ts[0])
    else TokenText(ts[0]) + " " + Render(ts[1..])
  }

  function Parse(s: string): Option<seq<PatByte>>
    decreases |s|
  {
    if |s| == 0 then Some([])
    else if |s| < 2 then None
    else match ParseToken(s[..2])
      case None => None
      case Some(t) =>
        if |s| == 2 then Some([t])
        else if s[2] != ' ' || |s| == 3 then None
        else match Parse(s[3..])
          case None => None
          case Some(rest) => Some([t] + rest)
  }

  lemma {:induction false} RenderLength(ts: seq<PatByte>)
    ensures |ts| > 0 ==> |Render(ts)| == 3 * |ts| - 1
    ensures |ts| == 0 ==> Render(ts) == ""
  {
    if |ts| > 1 {
      RenderLength(ts[1..]);
    }
  }

  /** The signature text is read back token for token. */
  lemma {:induction false} ParseRender(ts: seq<PatByte>)
    ensures Parse(Render(ts)) == Some(ts)
  {
    if |ts| == 1 {
      ParseTokenText(ts[0]);
      assert Render(ts)[..2] == TokenText(ts[0]);
      assert ts == [ts[0]];
    } else if |ts| > 1 {
      var s := Render(ts);
      var head := TokenText(ts[0]);
      RenderLength(ts[1..]);
      assert s[..2] == head;
      assert s[2] == ' ';
      assert s[3..] == Render(ts[1..]);
      ParseTokenText(ts[0]);
      ParseRender(ts[1..]);
      assert [ts[0]] + ts[1..] == ts;
    }
  }

  /** Different token sequences never give the same text. */
  lemma RenderInjective(a: seq<PatByte>, b: seq<PatByte>)
    requires Render(a) == Render(b)
    ensures a == b
  {
    ParseRender(a);
    ParseRender(b);
  }

  /** Token `k` occupies characters `3k` and `3k+1`. */
  lemma {:induction false} RenderAt(ts: seq<PatByte>, k: nat)
    requires k < |ts|
    ensures |Render(ts)| == 3 * |ts| - 1
    ensures Render(ts)[3 * k .. 3 * k + 2] == TokenText(ts[k])
  {
    RenderLength(ts);
    if k > 0 {
      var head := TokenText(ts[0]) + " ";
      var tail := Render(ts[1..]);
      var j := 3 * (k - 1);
      RenderAt(ts[1..], k - 1);
      assert ts[1..][k - 1] == ts[k];
      assert tail[j .. j + 2] == TokenText(ts[k]);
      assert Render(ts) == head + tail;
      ShiftSlice(head, tail, j);
      assert 3 * k == j + 3;
    } else {
      RenderHead(ts);
    }
  }

  /** The text starts with the first token. */
  lemma RenderHead(ts: seq<PatByte>)
    requires |ts| > 0
    ensures Render(ts)[..2] == TokenText(ts[0])
  {
    var h := TokenText(ts[0]);
    if |ts| > 1 {
      var r := " " + Render(ts[1..]);
      assert Render(ts) == h + r;
      assert (h + r)[..|h|] == h;
    } else {
      assert Render(ts) == h;
      assert h[..|h|] == h;
    }
  }

  /** A single space follows every token but the last. */
  lemma {:induction false} RenderSpaceAt(ts: seq<PatByte>, k: nat)
    requires k + 1 < |ts|
    ensures |Render(ts)| == 3 * |ts| - 1
    ensures Render(ts)[3 * k + 2] == ' '
  {
    RenderLength(ts);
    if k > 0 {
      var tail := Render(ts[1..]);
      RenderSpaceAt(ts[1..], k - 1);
      assert Render(ts) == (TokenText(ts[0]) + " ") + tail;
      ShiftSlice(TokenText(ts[0]) + " ", tail, 3 * (k - 1));
    }
  }

  lemma ShiftSlice(head: string, tail: string, j: nat)
    requires |head| == 3 && j + 2 <= |tail|
    ensures (head + tail)[j + 3 .. j + 5] == tail[j .. j + 2]
    ensures j + 3 <= |tail| ==> (head + tail)[j + 5] == tail[j + 2]
  {
  }

  /** Appending a token appends one separator and its text; this is how the
      string stream grows. */
  lemma {:induction false} RenderSnoc(ts: seq<PatByte>, t: PatByte)
    ensures Render(ts + [t]) == if |ts| == 0 then TokenText(t) else Render(ts) + " " + TokenText(t)
  {
    if |ts| == 1 {
      assert (ts + [t])[1..] == [t];
    } else if |ts| > 1 {
      assert (ts + [t])[1..] == ts[1..] + [t];
      RenderSnoc(ts[1..], t);
    }
  }
}
