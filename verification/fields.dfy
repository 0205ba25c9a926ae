/** The two checks made on a field before typing into it: what text to type
    (`_normalize_fill_text`) and whether the field may be typed into at all
    (`_should_fill`). */
module Fields {
  import opened Wrappers
  import opened Text
  import opened Elements

  /** `r` is what is left of `t` once the leading `echo` and every `/` right
      after it are removed. */
  ghost predicate StripsEcho(t: string, echo: string, r: string) {
    && echo != []
    && IsPrefix(echo, t)
    && |echo| <= |t| - |r|
    && IsSuffix(r, t)
    && (forall i :: |echo| <= i < |t| - |r| ==> t[i] == '/')
    && (r == [] || r[0] != '/')
  }

  function StripEcho(t: string, echo: string): (r: string)
    requires echo != [] && IsPrefix(echo, t)
    ensures StripsEcho(t, echo, r)
  {
    var rest := t[|echo|..];
    var r := LStripChar(rest, '/');
    assert t[|t| - |r|..] == rest[|rest| - |r|..];
    forall i | |echo| <= i < |t| - |r|
      ensures t[i] == '/'
    {
      assert t[i] == rest[i - |echo|];
    }
    r
  }

  /** The text to type into a field whose current value read is `valueRead`
      (`None`: `input_value()` threw) and whose placeholder read is
      `placeholder`. A literal leading copy of the current value, or else of
      the placeholder, is dropped together with the `/`s after it. The
      source's third test (a placeholder ending in `/`) can never fire: a
      placeholder ending in `/` is non-empty, so the second test has already
      taken it, and the `assert false` in that branch is proved. */
  function NormalizeFillText(txt: string, valueRead: Option<string>, placeholder: AttrRead): (r: string)
    ensures IsSuffix(r, Strip(txt))
    ensures var t, cur := Strip(txt), Strip(valueRead.GetOr([]));
      cur != [] && IsPrefix(cur, t) ==> StripsEcho(t, cur, r)
    ensures var t, cur, ph := Strip(txt), Strip(valueRead.GetOr([])), AttrText(placeholder);
      !(cur != [] && IsPrefix(cur, t)) && ph != [] && IsPrefix(ph, t) ==> StripsEcho(t, ph, r)
    ensures var t, cur, ph := Strip(txt), Strip(valueRead.GetOr([])), AttrText(placeholder);
      !(cur != [] && IsPrefix(cur, t)) && !(ph != [] && IsPrefix(ph, t)) ==> r == t
  {
    var t := Strip(txt);
    var cur := Strip(valueRead.GetOr([]));
    var ph := AttrText(placeholder);
    if cur != [] && IsPrefix(cur, t) then StripEcho(t, cur)
    else if ph != [] && IsPrefix(ph, t) then StripEcho(t, ph)
    else if IsSuffix("/", ph) && IsPrefix(ph, t) then assert false; t
    else t
  }

  /** A placeholder that merely shares a word with the text strips nothing:
      only a literal leading copy counts. */
  lemma PlaceholderMustBeLiteralPrefix(t: string, ph: string)
    requires t == "myproject-x7q2" && ph == "e.g. myproject-"
    ensures NormalizeFillText(t, None, Present(ph)) == t
  {
    assert t[0] == 'm' && t[|t| - 1] == '2';
    StripOfTrimmed(t);
    assert ph[0] == 'e' && ph[|ph| - 1] == '-';
    StripOfTrimmed(ph);
    assert t[0] != ph[0];
  }

  /** With a blank field, an echoed placeholder is dropped and only the rest
      of the text is typed. */
  lemma {:induction false} EchoedPlaceholderIsDropped(value: string, ph: string, rest: string)
    requires IsBlank(value)
    requires ph != [] && Strip(ph) == ph && Strip(ph + rest) == ph + rest
    requires rest == [] || rest[0] != '/'
    ensures NormalizeFillText(ph + rest, Some(value), Present(ph)) == rest
  {
    var t := ph + rest;
    assert t[..|ph|] == ph && t[|ph|..] == rest;
    assert Strip(value) == [];
    assert AttrText(Present(ph)) == ph;
    var r := NormalizeFillText(t, Some(value), Present(ph));
    assert StripsEcho(t, ph, r);
    if rest != [] {
      assert t[|ph|] == rest[0] != '/';
    }
    assert |r| == |rest|;
  }

  lemma PlaceholderWithSlashExample(ph: string, rest: string)
    requires ph == "repo/" && rest == "x7q2"
    ensures NormalizeFillText(ph + rest, Some(""), Present(ph)) == rest
  {
    var t := ph + rest;
    assert t[0] == 'r' && t[|t| - 1] == '2';
    StripOfTrimmed(t);
    assert ph[0] == 'r' && ph[|ph| - 1] == '/';
    StripOfTrimmed(ph);
    EchoedPlaceholderIsDropped("", ph, rest);
    assert Strip("") == [];
  }

  /** `_should_fill`: a field may be typed into exactly when the first read that
      succeeds (its value, else its rendered text) is blank; when both reads
      throw, it is judged fillable. */
  function ShouldFill(valueRead: Option<string>, textRead: Option<string>): (r: bool)
    ensures valueRead.Some? ==> (r <==> IsBlank(valueRead.value))
    ensures valueRead.None? && textRead.Some? ==> (r <==> IsBlank(textRead.value))
    ensures valueRead.None? && textRead.None? ==> r
  {
    match valueRead
    case Some(v) => Strip(v) == []
    case None =>
      match textRead
      case Some(t) => Strip(t) == []
      case None => true
  }

  /** The value a hint reports is empty exactly when the same reads would let
      the executor type into the element: `empty` in the hints and the fill
      gate agree. */
  lemma HintEmptinessMatchesFillGate(valueRead: Option<string>, textRead: Option<string>)
    ensures CurrentValue(valueRead, textRead) == [] <==> ShouldFill(valueRead, textRead)
  {
  }
}
