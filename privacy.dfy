/**
 * Privacy masking of claim numbers, person names, street addresses, e-mail
 * addresses and phone numbers (client/src/lib/privacy.ts). Each mask is a
 * function; the lemmas state what survives the mask and that masking an
 * already-masked value changes nothing.
 */
module Privacy {
  import opened Strings
  import Seqs

  /** The fixed text that replaces the hidden part of a value. */
  const Stars: string := "***"

  /** `maskClaimNumber`: only the last four characters are shown. */
  function MaskClaimNumber(claimId: string): (r: string)
    ensures claimId == "" ==> r == ""
    ensures |claimId| <= 4 ==> r == claimId
    ensures |claimId| > 4 ==> |r| == 8 && StartsWith(r, "***-") && EndsWith(r, claimId[|claimId| - 4..])
  {
    if claimId == "" then ""
    else if |claimId| <= 4 then claimId
    else "***-" + claimId[|claimId| - 4..]
  }

  /** Two long claim numbers that end alike are masked alike: nothing before the last four shows. */
  lemma MaskClaimNumberOnlySuffix(a: string, b: string)
    requires |a| > 4 && |b| > 4 && a[|a| - 4..] == b[|b| - 4..]
    ensures MaskClaimNumber(a) == MaskClaimNumber(b)
  {
  }

  lemma MaskClaimNumberIdempotent(claimId: string)
    ensures MaskClaimNumber(MaskClaimNumber(claimId)) == MaskClaimNumber(claimId)
  {
    var r := MaskClaimNumber(claimId);
    if |claimId| > 4 {
      assert r[|r| - 4..] == claimId[|claimId| - 4..];
    }
  }

  /** A word of at most `limit` characters is kept; a longer one becomes its first character and "***". */
  function MaskWord(w: string, limit: nat): (r: string)
    ensures |w| <= limit ==> r == w
    ensures |w| > limit ==> |r| == 4 && r[0] == w[0] && r[1..] == Stars
    ensures forall c :: c in r ==> c == '*' || c in w
  {
    if |w| <= limit then w
    else
      assert w[0] in w;
      [w[0]] + Stars
  }

  /**
   * Joining the masked fields of a split adds no character but '*': each
   * masked field holds only '*' and characters of its field, and the
   * separator shows only when the original held it.
   */
  lemma MaskedJoinChars(s: string, sep: char, masked: seq<string>)
    requires |masked| == |Split(s, sep)|
    requires forall i, c :: 0 <= i < |masked| && c in masked[i] ==> c == '*' || c in Split(s, sep)[i]
    ensures forall c :: c in Join(masked, [sep]) ==> c == '*' || c in s
  {
    var words := Split(s, sep);
    forall c | c != '*' && c !in s
      ensures c !in Join(masked, [sep])
    {
      if c == sep {
        SplitWord(s, sep);
        assert Join(masked, [sep]) == masked[0];
      } else {
        forall w | w in masked
          ensures c !in w
        {
          var i :| 0 <= i < |masked| && masked[i] == w;
          assert words[i] in words;
        }
        JoinChars(masked, [sep], c);
      }
    }
  }

  lemma MaskWordIdempotent(w: string, limit: nat)
    ensures MaskWord(MaskWord(w, limit), limit) == MaskWord(w, limit)
  {
  }

  /** The words of a name, each masked with the one-character limit. */
  function MaskNameWords(words: seq<string>): (r: seq<string>)
    ensures |r| == |words|
    ensures forall i :: 0 <= i < |words| ==> r[i] == MaskWord(words[i], 1)
  {
    Seqs.Map(words, (w: string) => MaskWord(w, 1))
  }

  /**
   * `maskName`: every space-separated word longer than one character shows
   * only its first. The mask reveals nothing new: every character of the
   * result is '*' or a character of the name.
   */
  function MaskName(name: string): (r: string)
    ensures name == "" ==> r == ""
    ensures forall c :: c in r ==> c == '*' || c in name
  {
    if name == "" then ""
    else
      var words := Split(name, ' ');
      var masked := MaskNameWords(words);
      MaskedJoinChars(name, ' ', masked);
      Join(masked, " ")
  }

  /** Masked words hold no character the separator test would see, so no word splits or merges. */
  lemma MaskNameWordsFree(words: seq<string>, sep: char)
    requires sep != '*'
    requires forall w :: w in words ==> sep !in w
    ensures forall w :: w in MaskNameWords(words) ==> sep !in w
  {
    var r := MaskNameWords(words);
    forall w | w in r ensures sep !in w {
      var i :| 0 <= i < |r| && r[i] == w;
      assert words[i] in words;
    }
  }

  /** The masked name has the same number of words, and each is the masked original word. */
  lemma MaskNameKeepsWords(name: string)
    ensures Split(MaskName(name), ' ') == MaskNameWords(Split(name, ' '))
  {
    var words := Split(name, ' ');
    if name == "" {
      assert words == [""];
      assert MaskNameWords(words) == [""];
    } else {
      MaskNameWordsFree(words, ' ');
      SplitJoin(MaskNameWords(words), ' ');
    }
  }

  lemma MaskNameIdempotent(name: string)
    ensures MaskName(MaskName(name)) == MaskName(name)
  {
    var m := MaskName(name);
    if m != "" {
      MaskNameKeepsWords(name);
      var words := MaskNameWords(Split(name, ' '));
      assert MaskNameWords(words) == words by {
        forall i | 0 <= i < |words| ensures MaskNameWords(words)[i] == words[i] {
          MaskWordIdempotent(Split(name, ' ')[i], 1);
        }
      }
    }
  }

  /** A street word: an all-digit house number in first position is kept; otherwise the two-character limit applies. */
  function MaskStreetWord(idx: nat, w: string): (r: string)
    ensures idx == 0 && IsAllDigits(w) ==> r == w
    ensures !(idx == 0 && IsAllDigits(w)) ==> r == MaskWord(w, 2)
  {
    if idx == 0 && IsAllDigits(w) then w else MaskWord(w, 2)
  }

  function MaskStreetWords(words: seq<string>): (r: seq<string>)
    ensures |r| == |words|
    ensures forall i :: 0 <= i < |words| ==> r[i] == MaskStreetWord(i, words[i])
  {
    seq(|words|, i requires 0 <= i < |words| => MaskStreetWord(i, words[i]))
  }

  /**
   * The first part of an address with each of its space-separated words
   * masked; every character of the result is '*' or a character of the street.
   */
  function MaskStreet(street: string): (r: string)
    ensures forall c :: c in r ==> c == '*' || c in street
  {
    var words := Split(street, ' ');
    var masked := MaskStreetWords(words);
    MaskedJoinChars(street, ' ', masked);
    Join(masked, " ")
  }

  /** The comma-separated parts of an address, each trimmed. */
  function AddressParts(address: string): (r: seq<string>)
    ensures |r| == |Split(address, ',')| >= 1
    ensures forall p :: p in r ==> ',' !in p
    ensures forall i :: 0 <= i < |r| ==> r[i] == Trim(Split(address, ',')[i])
  {
    var raw := Split(address, ',');
    var r := Seqs.Map(raw, Trim);
    assert forall i :: 0 <= i < |r| ==> ',' !in r[i] by {
      forall i | 0 <= i < |r| ensures ',' !in r[i] {
        assert raw[i] in raw;
      }
    }
    r
  }

  /**
   * `maskAddress`: the masked street, then the trimmed city if there is one;
   * every later part (state, postal code) is dropped. `split` never returns an
   * empty array, so the source's empty-parts branch cannot be taken. Apart
   * from '*' and the space after the comma, the result holds only characters
   * of the address.
   */
  function MaskAddress(address: string): (r: string)
    ensures address == "" ==> r == ""
    ensures forall c :: c in r ==> c == '*' || c == ' ' || c in address
  {
    if address == "" then ""
    else
      var raw := Split(address, ',');
      var parts := AddressParts(address);
      var street := MaskStreet(parts[0]);
      assert forall c :: c in parts[0] ==> c in address by {
        assert raw[0] in raw;
      }
      if |parts| > 1 then
        assert raw[1] in raw;
        assert ',' in address by {
          if ',' !in address {
            SplitWord(address, ',');
          }
        }
        street + ", " + parts[1]
      else street
  }

  /** The masked street keeps its number of words, each masked by position. */
  lemma MaskStreetKeepsWords(street: string)
    ensures Split(MaskStreet(street), ' ') == MaskStreetWords(Split(street, ' '))
  {
    var words := Split(street, ' ');
    var masked := MaskStreetWords(words);
    forall w | w in masked ensures ' ' !in w {
      var i :| 0 <= i < |masked| && masked[i] == w;
      assert words[i] in words;
    }
    SplitJoin(masked, ' ');
  }

  /**
   * The masked address has at most one comma: the masked street, then the city
   * after ", ". Nothing from the third comma-separated part on survives.
   */
  lemma MaskAddressShape(address: string)
    requires address != ""
    ensures |AddressParts(address)| > 1 ==>
      Split(MaskAddress(address), ',') == [MaskStreet(AddressParts(address)[0]), " " + AddressParts(address)[1]]
    ensures |AddressParts(address)| == 1 ==>
      Split(MaskAddress(address), ',') == [MaskStreet(AddressParts(address)[0])]
  {
    var parts := AddressParts(address);
    assert parts[0] in parts;
    assert ',' !in MaskStreet(parts[0]);
    if |parts| > 1 {
      assert parts[1] in parts;
      SplitStreetCity(MaskStreet(parts[0]), parts[1]);
    } else {
      SplitWord(MaskStreet(parts[0]), ',');
    }
  }

  /** A comma-free street and city joined by ", " split back at the comma. */
  lemma SplitStreetCity(street: string, city: string)
    requires ',' !in street && ',' !in city
    ensures Split(street + ", " + city, ',') == [street, " " + city]
  {
    assert ',' !in " " + city;
    assert street + ", " + city == street + [','] + (" " + city);
    SplitWordThenSep(street, ',', " " + city);
    SplitWord(" " + city, ',');
  }

  /** Masking the words of `street` through its known split. */
  lemma MaskStreetVia(street: string, words: seq<string>, masked: string)
    requires Split(street, ' ') == words
    requires Join(MaskStreetWords(words), " ") == masked
    ensures MaskStreet(street) == masked
  {
  }

  lemma SplitDocStreet()
    ensures Split("123 Main Street", ' ') == ["123", "Main", "Street"]
  {
    var words := ["123", "Main", "Street"];
    assert Join(words, [' ']) == "123 Main Street" by {
      assert Join(words[2..], [' ']) == "Street";
      assert Join(words[1..], [' ']) == "Main Street";
    }
    SplitJoin(words, ' ');
  }

  lemma MaskDocStreetWords()
    ensures MaskStreetWords(["123", "Main", "Street"]) == ["123", "M***", "S***"]
  {
    assert IsAllDigits("123");
    assert MaskStreetWord(0, "123") == "123";
    assert MaskStreetWord(1, "Main") == "M***";
    assert MaskStreetWord(2, "Street") == "S***";
  }

  lemma JoinDocStreetWords()
    ensures Join(["123", "M***", "S***"], " ") == "123 M*** S***"
  {
    var m := ["123", "M***", "S***"];
    assert Join(m[2..], " ") == "S***";
    assert Join(m[1..], " ") == "M*** S***";
  }

  /**
   * The street of the documented example "123 Main Street, Houston, TX 77001":
   * the code masks "Street" to "S***" (its comment shows "St").
   */
  lemma MaskStreetDocExample()
    ensures MaskStreet("123 Main Street") == "123 M*** S***"
  {
    SplitDocStreet();
    MaskDocStreetWords();
    JoinDocStreetWords();
    MaskStreetVia("123 Main Street", ["123", "Main", "Street"], "123 M*** S***");
  }

  /** `maskEmail`'s rule for the labels of the domain: the last label (the TLD) is kept. */
  function MaskLabels(labels: seq<string>): (r: seq<string>)
    ensures |r| == |labels|
    ensures |labels| > 0 ==> r[|r| - 1] == labels[|labels| - 1]
    ensures forall i :: 0 <= i < |labels| - 1 ==> r[i] == MaskWord(labels[i], 1)
  {
    seq(|labels|, i requires 0 <= i < |labels| => if i == |labels| - 1 then labels[i] else MaskWord(labels[i], 1))
  }

  /** The masked domain: every character of the result is '*' or a character of the domain. */
  function MaskDomain(domain: string): (r: string)
    ensures forall c :: c in r ==> c == '*' || c in domain
  {
    var labels := Split(domain, '.');
    var masked := MaskLabels(labels);
    MaskedJoinChars(domain, '.', masked);
    Join(masked, ".")
  }

  /** The local part of `email.split('@')`: the text before the first '@', or all of it. */
  function EmailLocal(email: string): (r: string)
    ensures r <= email && '@' !in r
    ensures |r| < |email| ==> email[|r|] == '@'
  {
    var parts := Split(email, '@');
    SplitFront(email, '@');
    assert parts[0] in parts;
    parts[0]
  }

  /**
   * The domain of `email.split('@')`: the text between the first '@' and the
   * next one (or the end); empty without an '@'.
   */
  function EmailDomain(email: string): (r: string)
    ensures '@' !in r
    ensures '@' !in email ==> r == ""
    ensures '@' in email ==> EmailLocal(email) + "@" + r <= email
    ensures '@' in email && |EmailLocal(email)| + 1 + |r| < |email| ==> email[|EmailLocal(email)| + 1 + |r|] == '@'
  {
    var parts := Split(email, '@');
    SplitFront(email, '@');
    assert parts[0] in parts;
    if |parts| > 1 then
      assert parts[1] in parts;
      parts[1]
    else ""
  }

  /**
   * `maskEmail`: an address without a local part or a domain is returned as it
   * is; otherwise the local part and every domain label but the last show only
   * their first character. Text after a second '@' is dropped.
   */
  function MaskEmail(email: string): (r: string)
    ensures EmailLocal(email) == "" || EmailDomain(email) == "" ==> r == email
  {
    if email == "" then ""
    else
      var local := EmailLocal(email);
      var domain := EmailDomain(email);
      if local == "" || domain == "" then email
      else MaskWord(local, 1) + "@" + MaskDomain(domain)
  }

  /** The labels of the masked domain are the masked labels: their number is kept and the TLD survives. */
  lemma MaskDomainLabels(domain: string)
    ensures Split(MaskDomain(domain), '.') == MaskLabels(Split(domain, '.'))
  {
    var labels := Split(domain, '.');
    var masked := MaskLabels(labels);
    forall w | w in masked ensures '.' !in w {
      var i :| 0 <= i < |masked| && masked[i] == w;
      assert labels[i] in labels;
      if i < |labels| - 1 {
        assert masked[i] == MaskWord(labels[i], 1);
      }
    }
    SplitJoin(masked, '.');
  }

  lemma MaskDomainNonEmpty(domain: string)
    requires domain != ""
    ensures MaskDomain(domain) != ""
  {
    var labels := Split(domain, '.');
    var masked := MaskLabels(labels);
    if |labels| == 1 {
      JoinSplit(domain, '.');
      assert masked[0] == labels[0] == domain;
    } else {
      assert MaskDomain(domain) == masked[0] + "." + Join(masked[1..], ".");
    }
  }

  /**
   * A masked address has exactly one '@': splitting it at '@' gives the masked
   * local part and the masked domain, and nothing else.
   */
  lemma MaskEmailShape(email: string)
    requires EmailLocal(email) != "" && EmailDomain(email) != ""
    ensures Split(MaskEmail(email), '@') == [MaskWord(EmailLocal(email), 1), MaskDomain(EmailDomain(email))]
  {
    var parts := Split(email, '@');
    var local := EmailLocal(email);
    var domain := EmailDomain(email);
    assert local in parts && domain in parts;
    assert '@' !in MaskWord(local, 1) && '@' !in MaskDomain(domain);
    var ws := [MaskWord(local, 1), MaskDomain(domain)];
    assert Join(ws, ['@']) == MaskEmail(email);
    SplitJoin(ws, '@');
  }

  lemma MaskLabelsIdempotent(labels: seq<string>)
    ensures MaskLabels(MaskLabels(labels)) == MaskLabels(labels)
  {
    var m := MaskLabels(labels);
    forall i | 0 <= i < |m| ensures MaskLabels(m)[i] == m[i] {
      if i < |labels| - 1 {
        MaskWordIdempotent(labels[i], 1);
      }
    }
  }

  lemma MaskEmailIdempotent(email: string)
    ensures MaskEmail(MaskEmail(email)) == MaskEmail(email)
  {
    var local := EmailLocal(email);
    var domain := EmailDomain(email);
    if local != "" && domain != "" {
      var m := MaskEmail(email);
      MaskEmailShape(email);
      MaskDomainNonEmpty(domain);
      var ml := MaskWord(local, 1);
      var md := MaskDomain(domain);
      assert EmailLocal(m) == ml && EmailDomain(m) == md;
      MaskWordIdempotent(local, 1);
      MaskDomainLabels(domain);
      MaskLabelsIdempotent(Split(domain, '.'));
      assert MaskDomain(md) == md;
    }
  }

  /** `maskPhone`: with at least four digits, only the last four digits are shown. */
  function MaskPhone(phone: string): (r: string)
    ensures |Digits(phone)| < 4 ==> r == phone
    ensures |Digits(phone)| >= 4 ==> r == "***-" + Digits(phone)[|Digits(phone)| - 4..]
  {
    if phone == "" then ""
    else
      var digits := Digits(phone);
      if |digits| < 4 then phone else "***-" + digits[|digits| - 4..]
  }

  /** A masked phone number shows at most four digits, and exactly the last four when it was masked. */
  lemma MaskPhoneDigits(phone: string)
    ensures |Digits(MaskPhone(phone))| <= 4
    ensures |Digits(phone)| >= 4 ==> Digits(MaskPhone(phone)) == Digits(phone)[|Digits(phone)| - 4..]
  {
    var digits := Digits(phone);
    if |digits| >= 4 {
      var last := digits[|digits| - 4..];
      DigitsAppend("***-", last);
      assert Digits("***-") == "";
    }
  }

  lemma MaskPhoneIdempotent(phone: string)
    ensures MaskPhone(MaskPhone(phone)) == MaskPhone(phone)
  {
    MaskPhoneDigits(phone);
  }
}
