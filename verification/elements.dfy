/** What the agent can read from one page element. Every read may throw; the
    source turns a throw, and an absent attribute, into the empty string. */
module Elements {
  import opened Wrappers
  import opened Text

  /** One `get_attribute` call: it threw, the attribute is absent (`None`), or
      it has a value. */
  datatype AttrRead = Threw | Absent | Present(text: string)

  /** `(el.get_attribute(k) or "").strip()` inside `try`, `""` on a throw. */
  function AttrText(a: AttrRead): (r: string)
    ensures a.Present? ==> r == Strip(a.text)
    ensures !a.Present? ==> r == []
  {
    match a
    case Present(t) => Strip(t)
    case _ => []
  }

  /** `input_value()` falling back to `inner_text()`, `""` when both throw,
      then stripped: the value a hint reports for an input element. */
  function CurrentValue(valueRead: Option<string>, textRead: Option<string>): (r: string)
    ensures valueRead.Some? ==> r == Strip(valueRead.value)
    ensures valueRead.None? && textRead.Some? ==> r == Strip(textRead.value)
    ensures valueRead.None? && textRead.None? ==> r == []
  {
    match valueRead
    case Some(v) => Strip(v)
    case None => Strip(textRead.GetOr([]))
  }
}
