/** The payload preview, which stops serializing as soon as it knows that it has to truncate. */
module PayloadPreview {
  /** A string is shown as it is; anything else comes from the encoder in chunks. */
  datatype Payload = Text(text: string) | Encoded(chunks: seq<string>)

  function Joined(chunks: seq<string>): string {
    if chunks == [] then "" else Joined(chunks[..|chunks| - 1]) + chunks[|chunks| - 1]
  }

  function Serialization(payload: Payload): string {
    match payload
    case Text(text) => text
    case Encoded(chunks) => Joined(chunks)
  }

  function TruncatePreview(raw: string, max: nat): (r: string)
    ensures |r| <= max
    ensures |raw| <= max ==> r == raw
    ensures |raw| > max && max <= 3 ==> |r| == max && r <= raw
    ensures |raw| > max > 3 ==> |r| == max && r[max - 3..] == "..." && r[..max - 3] <= raw
  {
    if |raw| <= max then raw
    else if max <= 3 then raw[..max]
    else raw[..max - 3] + "..."
  }

  lemma {:induction false} JoinedPrefix(chunks: seq<string>, n: nat)
    requires n <= |chunks|
    ensures Joined(chunks[..n]) <= Joined(chunks)
    decreases |chunks|
  {
    if n < |chunks| {
      assert chunks[..|chunks| - 1][..n] == chunks[..n];
      JoinedPrefix(chunks[..|chunks| - 1], n);
    } else {
      assert chunks[..n] == chunks;
    }
  }

  /** A prefix longer than the limit is truncated like the whole. */
  lemma PrefixTruncates(part: string, whole: string, max: nat)
    requires part <= whole && |part| > max
    ensures TruncatePreview(part, max) == TruncatePreview(whole, max) && |whole| > max
  {
    assert part[..max] == whole[..max];
    if max > 3 { assert part[..max - 3] == whole[..max - 3]; }
  }

  /**
   * The preview is the truncation of the full serialization, together with whether that exceeds the
   * limit, however the encoder splits its output; at most one character more than the limit is kept.
   */
  method PayloadPreviewWithLimit(payload: Payload, max: nat) returns (preview: string, exceeds: bool, ghost kept: nat)
    ensures preview == TruncatePreview(Serialization(payload), max)
    ensures exceeds == (|Serialization(payload)| > max)
    ensures payload.Encoded? ==> kept <= max + 1
  {
    kept := 0;
    if payload.Text? {
      return TruncatePreview(payload.text, max), |payload.text| > max, 0;
    }
    ghost var whole := Serialization(payload);
    var chunks, raw, truncated := payload.chunks, "", false;
    var i := 0;
    while i < |chunks|
      invariant 0 <= i <= |chunks| && |raw| <= max + 1
      invariant if truncated then i < |chunks| && |raw| == max + 1 && raw <= whole else raw == Joined(chunks[..i])
    {
      JoinedPrefix(chunks, i + 1);
      JoinedPrefix(chunks, i);
      assert chunks[..i + 1][..i] == chunks[..i];
      var remaining := max + 1 - |raw|;
      if remaining <= 0 {
        truncated := true;
        break;
      }
      if |chunks[i]| > remaining {
        raw := raw + chunks[i][..remaining];
        truncated := true;
        break;
      }
      raw := raw + chunks[i];
      i := i + 1;
    }
    kept := |raw|;
    assert !truncated ==> chunks[..i] == chunks;
    if |raw| > max {
      truncated := true;
    }
    if !truncated {
      return raw, false, kept;
    }
    PrefixTruncates(raw, whole, max);
    return TruncatePreview(raw, max), true, kept;
  }
}
