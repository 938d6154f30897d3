/**
 * The welcome mail built for one inserted user, and its `JSON.stringify`
 * text, which becomes the queue message body.
 */
module WelcomeMail {
  import opened Wrappers
  import opened StreamRecords
  import opened JsonString

  /** `{to, subject, html}`; `to` is `undefined` when the email attribute is not a string. */
  datatype Mail = Mail(to: Option<string>, subject: string, html: string)

  const ConfirmParagraph: string :=
    "<p>Por favor confirmá tu email en el siguiente enlace -> http://fake.newsletter.com</p>"

  /** A value interpolated into a template literal: `undefined` prints as "undefined". */
  function TemplateText(v: Option<string>): string {
    v.GetOr("undefined")
  }

  /** JavaScript truthiness of `confirmed`: only `true` is truthy. */
  predicate Truthy(confirmed: Option<bool>) {
    confirmed == Some(true)
  }

  function WelcomeParagraph(name: string): string {
    "<p>Bienvenido a nuestro newsletter, <b>" + name + "</b>!</p>"
  }

  /** The subject: the fixed greeting, then the name, then `!`. */
  function Subject(name: string): (r: string)
    ensures |r| == |"Bienvenido, "| + |name| + 1
    ensures "Bienvenido, " <= r && r[|r| - 1] == '!'
    ensures r[|"Bienvenido, "|..|r| - 1] == name
  {
    "Bienvenido, " + name + "!"
  }

  /** The HTML body: the welcome paragraph, then the confirmation paragraph unless `confirmed` is truthy. */
  function Html(name: string, confirmed: Option<bool>): (r: string)
    ensures WelcomeParagraph(name) <= r
    ensures Truthy(confirmed) ==> r[|WelcomeParagraph(name)|..] == ""
    ensures !Truthy(confirmed) ==> r[|WelcomeParagraph(name)|..] == ConfirmParagraph
  {
    if Truthy(confirmed) then WelcomeParagraph(name) else WelcomeParagraph(name) + ConfirmParagraph
  }

  /**
   * The mail for one inserted user: addressed to the user's email, with the
   * user's name in the subject, and the confirmation paragraph after the
   * welcome paragraph exactly when `confirmed` is falsy.
   */
  function MailOf(u: User): (m: Mail)
    ensures m.to == u.email
    ensures m.subject == "Bienvenido, " + TemplateText(u.name) + "!"
    ensures WelcomeParagraph(TemplateText(u.name)) <= m.html
    ensures m.html[|WelcomeParagraph(TemplateText(u.name))|..] == if Truthy(u.confirmed) then "" else ConfirmParagraph
  {
    Mail(u.email, Subject(TemplateText(u.name)), Html(TemplateText(u.name), u.confirmed))
  }

  /** Builds the mail as the handler does, appending the confirmation paragraph to `html` in place. */
  method BuildMail(u: User) returns (m: Mail)
    ensures m.to == u.email
    ensures m.subject == "Bienvenido, " + TemplateText(u.name) + "!"
    ensures WelcomeParagraph(TemplateText(u.name)) <= m.html
    ensures m.html[|WelcomeParagraph(TemplateText(u.name))|..] == if Truthy(u.confirmed) then "" else ConfirmParagraph
    ensures m == MailOf(u)
  {
    var name := TemplateText(u.name);
    var html := WelcomeParagraph(name);
    if !Truthy(u.confirmed) {
      html := html + ConfirmParagraph;
    }
    m := Mail(u.email, Subject(name), html);
  }

  /** The subject names the user: different names give different subjects. */
  lemma SubjectDetermines(n1: string, n2: string)
    ensures Subject(n1) == Subject(n2) <==> n1 == n2
  {
    if Subject(n1) == Subject(n2) {
      var p := "Bienvenido, ";
      assert Subject(n1)[|p|..|Subject(n1)| - 1] == n1;
      assert Subject(n2)[|p|..|Subject(n2)| - 1] == n2;
    }
  }

  /**
   * The HTML body determines both the name shown and whether the
   * confirmation paragraph is there: the welcome paragraph ends in `!</p>`,
   * the confirmation paragraph in `.com</p>`.
   */
  lemma HtmlDetermines(n1: string, c1: Option<bool>, n2: string, c2: Option<bool>)
    ensures Html(n1, c1) == Html(n2, c2) <==> n1 == n2 && (Truthy(c1) <==> Truthy(c2))
  {
    var h1, h2 := Html(n1, c1), Html(n2, c2);
    if h1 == h2 {
      if Truthy(c1) != Truthy(c2) {
        var n := if Truthy(c1) then n2 else n1;
        WelcomeEndsWithBang(if Truthy(c1) then n1 else n2);
        ConfirmedEndsWithM(WelcomeParagraph(n));
        assert false;
      }
      var pre := "<p>Bienvenido a nuestro newsletter, <b>";
      var post := "</b>!</p>";
      var w1, w2 := WelcomeParagraph(n1), WelcomeParagraph(n2);
      if !Truthy(c1) {
        assert w1 == h1[..|h1| - |ConfirmParagraph|];
        assert w2 == h2[..|h2| - |ConfirmParagraph|];
      }
      assert w1 == w2;
      assert w1[|pre|..|w1| - |post|] == n1;
      assert w2[|pre|..|w2| - |post|] == n2;
    }
  }

  lemma WelcomeEndsWithBang(name: string)
    ensures WelcomeParagraph(name)[|WelcomeParagraph(name)| - 5] == '!'
  {
  }

  lemma ConfirmedEndsWithM(w: string)
    ensures (w + ConfirmParagraph)[|w + ConfirmParagraph| - 5] == 'm'
  {
  }

  /** The mail carries the user's data: equal mails come from users with the same email, name text and truthiness. */
  lemma MailOfDetermines(u1: User, u2: User)
    ensures MailOf(u1) == MailOf(u2) <==>
      u1.email == u2.email && TemplateText(u1.name) == TemplateText(u2.name) && (Truthy(u1.confirmed) <==> Truthy(u2.confirmed))
  {
    HtmlDetermines(TemplateText(u1.name), u1.confirmed, TemplateText(u2.name), u2.confirmed);
  }

  // ----- JSON.stringify of a mail -----

  function KeyPrefix(key: string): string {
    "\"" + key + "\":"
  }

  function Member(key: string, value: string): string {
    KeyPrefix(key) + Quote(value)
  }

  /** The `to` member and its comma; `JSON.stringify` leaves out a member whose value is `undefined`. */
  function ToMember(to: Option<string>): string {
    match to
    case Some(t) => Member("to", t) + ","
    case None => ""
  }

  /**
   * `JSON.stringify(mail)`: the members in insertion order `to`, `subject`,
   * `html`, without whitespace. The text decodes back to the mail.
   */
  function Stringify(m: Mail): (s: string)
    ensures DecodeMail(s) == Some(m)
  {
    var tail := "," + (Member("html", m.html) + "}");
    var s := "{" + (ToMember(m.to) + (Member("subject", m.subject) + tail));
    assert DecodeMail(s) == Some(m) by {
      DecodeAfterToParses(m.to, m.subject, m.html);
      if m.to.Some? {
        DecodeWithTo(m.to.value, Member("subject", m.subject) + tail);
      } else {
        assert ToMember(m.to) + (Member("subject", m.subject) + tail) == Member("subject", m.subject) + tail;
        DecodeWithoutTo(m.subject, tail);
      }
    }
    s
  }

  function Expect(lit: string, s: string): (r: Option<string>)
    ensures r.Some? ==> s == lit + r.value
  {
    if |lit| <= |s| && s[..|lit|] == lit then Some(s[|lit|..]) else None
  }

  function ParseMember(key: string, s: string): Option<(string, string)> {
    match Expect(KeyPrefix(key), s)
    case None => None
    case Some(rest) => ParseString(rest)
  }

  function DecodeAfterTo(to: Option<string>, s: string): Option<Mail> {
    match ParseMember("subject", s)
    case None => None
    case Some((subject, s1)) =>
      match Expect(",", s1)
      case None => None
      case Some(s2) =>
        match ParseMember("html", s2)
        case None => None
        case Some((html, s3)) => if s3 == "}" then Some(Mail(to, subject, html)) else None
  }

  /** Reads back a message body of the shape `Stringify` writes. */
  function DecodeMail(s: string): Option<Mail> {
    match Expect("{", s)
    case None => None
    case Some(s1) =>
      match ParseMember("to", s1)
      case Some((to, s2)) =>
        (match Expect(",", s2)
         case None => None
         case Some(s3) => DecodeAfterTo(Some(to), s3))
      case None => DecodeAfterTo(None, s1)
  }

  lemma ExpectPrefix(lit: string, t: string)
    ensures Expect(lit, lit + t) == Some(t)
  {
    assert (lit + t)[..|lit|] == lit;
    assert (lit + t)[|lit|..] == t;
  }

  lemma MemberParses(key: string, v: string, t: string)
    ensures ParseMember(key, Member(key, v) + t) == Some((v, t))
  {
    assert Member(key, v) + t == KeyPrefix(key) + (Quote(v) + t);
    ExpectPrefix(KeyPrefix(key), Quote(v) + t);
    QuoteParses(v, t);
  }

  lemma DecodeAfterToParses(to: Option<string>, subject: string, html: string)
    ensures DecodeAfterTo(to, Member("subject", subject) + ("," + (Member("html", html) + "}"))) == Some(Mail(to, subject, html))
  {
    var tail := "," + (Member("html", html) + "}");
    MemberParses("subject", subject, tail);
    ExpectPrefix(",", Member("html", html) + "}");
    MemberParses("html", html, "}");
  }

  lemma DecodeWithTo(to: string, rest: string)
    ensures DecodeMail("{" + (ToMember(Some(to)) + rest)) == DecodeAfterTo(Some(to), rest)
  {
    var s1 := ToMember(Some(to)) + rest;
    ExpectPrefix("{", s1);
    assert Expect("{", "{" + s1) == Some(s1);
    assert s1 == Member("to", to) + ("," + rest);
    MemberParses("to", to, "," + rest);
    assert ParseMember("to", s1) == Some((to, "," + rest));
    ExpectPrefix(",", rest);
    assert Expect(",", "," + rest) == Some(rest);
  }

  lemma DecodeWithoutTo(subject: string, rest: string)
    ensures DecodeMail("{" + (Member("subject", subject) + rest)) == DecodeAfterTo(None, Member("subject", subject) + rest)
  {
    var s1 := Member("subject", subject) + rest;
    ExpectPrefix("{", s1);
    assert s1[1] == 's';
    assert KeyPrefix("to")[1] == 't';
    assert Expect(KeyPrefix("to"), s1) == None;
  }

  /** Different mails give different message bodies. */
  lemma StringifyInjective(m1: Mail, m2: Mail)
    ensures Stringify(m1) == Stringify(m2) <==> m1 == m2
  {
  }
}
