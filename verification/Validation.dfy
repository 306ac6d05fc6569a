/** Checking a configuration before a run. */
module Validation {
  import opened Dialect

  datatype Role = DelimiterByte | TerminatorByte | QuoteByte | EscapeByte | CommentByte

  datatype Control = Control(role: Role, value: Option<byte>)

  /** The configured control bytes; the second terminator byte exists under CRLF only. */
  function Controls(c: Config): (r: seq<Control>)
    ensures |r| == 6
  {
    [ Control(DelimiterByte, Some(c.delimiter)),
      Control(TerminatorByte, Some(if c.terminator.CrLf? then LF else c.terminator.value)),
      Control(TerminatorByte, if c.terminator.CrLf? then Some(CR) else None),
      Control(QuoteByte, c.quote),
      Control(EscapeByte, c.escape),
      Control(CommentByte, c.comment) ]
  }

  /** The same byte in two roles; quote and escape may share one. */
  predicate Clash(x: Control, y: Control) {
    && x.value.Some? && x.value == y.value
    && !(x.role.QuoteByte? && y.role.EscapeByte?)
  }

  /** Compare the control bytes pairwise; an escape needs a quote. */
  method Validate(c: Config) returns (ok: bool)
    ensures ok <==> c.Valid()
  {
    var bytes := Controls(c);
    for i := 0 to |bytes|
      invariant forall p, q :: 0 <= p < i && p < q < |bytes| ==> !Clash(bytes[p], bytes[q])
    {
      for k := i + 1 to |bytes|
        invariant forall q :: i < q < k ==> !Clash(bytes[i], bytes[q])
      {
        var x, y := bytes[i], bytes[k];
        if x.value.Some? && y.value.Some? && x.value == y.value {
          if x.role.QuoteByte? && y.role.EscapeByte? {
            continue;
          }
          ClashIsInvalid(c, i, k);
          return false;
        }
      }
    }
    NoClash(c);
    ok := !(c.escape.Some? && c.quote.None?);
  }

  lemma ClashIsInvalid(c: Config, i: nat, k: nat)
    requires i < k < 6 && Clash(Controls(c)[i], Controls(c)[k])
    ensures !c.Valid()
  {
  }

  lemma NoClash(c: Config)
    requires forall p, q :: 0 <= p < 6 && p < q < 6 ==> !Clash(Controls(c)[p], Controls(c)[q])
    ensures c.Valid() <==> (c.escape.Some? ==> c.quote.Some?)
  {
    var b := Controls(c);
    assert !Clash(b[0], b[1]) && !Clash(b[0], b[2]) && !Clash(b[0], b[3]) && !Clash(b[0], b[4]) && !Clash(b[0], b[5]);
    assert !Clash(b[1], b[3]) && !Clash(b[1], b[4]) && !Clash(b[1], b[5]);
    assert !Clash(b[2], b[3]) && !Clash(b[2], b[4]) && !Clash(b[2], b[5]);
    assert !Clash(b[3], b[5]) && !Clash(b[4], b[5]);
  }

  /** Text mode takes ASCII control bytes only. */
  method ValidateAsciiControlBytes(c: Config) returns (ok: bool)
    ensures ok <==> c.AsciiControls()
  {
    var bytes := Controls(c);
    for i := 0 to |bytes|
      invariant forall p :: 0 <= p < i && bytes[p].value.Some? ==> bytes[p].value.value < 128
    {
      if bytes[i].value.Some? && bytes[i].value.value >= 128 {
        return false;
      }
    }
    assert bytes[0].value.Some? && bytes[1].value.Some?;
    assert forall p :: 0 <= p < 6 && bytes[p].value.Some? ==> bytes[p].value.value < 128;
    assert bytes[3].value == c.quote && bytes[4].value == c.escape && bytes[5].value == c.comment;
    ok := true;
  }
}
