/** The page header of `client/src/components/layouts/header/HeaderLayout.tsx`:
    which parts it renders for the current path, the signed-in user and the
    route's `username`/`title` parameters. */
module HeaderLayout {
  /** `pathname.startsWith("/edit/")`. */
  predicate IsEditRoute(pathname: string)
  {
    "/edit/" <= pathname
  }

  /** `!!username && !!title`, the parameters defaulting to "". */
  predicate CanDisplayEditLinkContainer(username: string, title: string)
  {
    username != "" && title != ""
  }

  predicate CanDisplaySearch(pathname: string, hasUser: bool)
  {
    if pathname == "/login" || pathname == "/signup" || pathname == "/choose-categories" then false
    else if pathname == "/" && !hasUser then false
    else true
  }

  /** What the header renders: the search dialog, the Login button, how many
      publish/options container pairs, the Write link, the edit-link
      container and the avatar. */
  datatype Header = Header(
    search: bool,
    login: bool,
    publishContainers: nat,
    writeLink: bool,
    editLinkContainer: bool,
    avatar: bool)

  function Render(pathname: string, hasUser: bool, username: string, title: string): (r: Header)
    ensures r.avatar <==> hasUser
    ensures !(r.login && r.avatar) && !(r.login && r.writeLink)
    ensures r.publishContainers <= 1
    ensures r.writeLink ==> r.publishContainers == 0
  {
    assert !(pathname == "/write" && IsEditRoute(pathname)) by {
      if pathname == "/write" {
        assert pathname[1] == 'w' && "/edit/"[1] == 'e';
      }
    }
    Header(
      CanDisplaySearch(pathname, hasUser),
      pathname != "/login" && !hasUser,
      (if pathname == "/write" then 1 else 0) + (if IsEditRoute(pathname) then 1 else 0),
      hasUser && pathname != "/write" && !IsEditRoute(pathname),
      CanDisplayEditLinkContainer(username, title),
      hasUser)
  }

  /** Search is never offered on the login, signup and category-choice pages;
      on "/" only to a signed-in user; everywhere else always. */
  lemma SearchVisibility(pathname: string, hasUser: bool, username: string, title: string)
    ensures var h := Render(pathname, hasUser, username, title);
      && (pathname in {"/login", "/signup", "/choose-categories"} ==> !h.search)
      && (pathname == "/" ==> (h.search <==> hasUser))
      && (pathname !in {"/login", "/signup", "/choose-categories", "/"} ==> h.search)
  {
  }

  /** "/write" is not an edit route, so at most one pair of publish/options
      containers is rendered, and one is exactly on "/write" and on edit
      routes; the Write link shows only where no such pair does. */
  lemma PublishSlots(pathname: string, hasUser: bool, username: string, title: string)
    ensures var h := Render(pathname, hasUser, username, title);
      && h.publishContainers <= 1
      && (h.publishContainers == 1 <==> pathname == "/write" || IsEditRoute(pathname))
      && (h.writeLink <==> hasUser && h.publishContainers == 0)
  {
    if pathname == "/write" {
      assert pathname[1] == 'w' && "/edit/"[1] == 'e';
      assert !IsEditRoute(pathname);
    }
  }

  /** The Login button shows only to a visitor who is not signed in and not
      already on "/login", so never together with the avatar. */
  lemma LoginButton(pathname: string, hasUser: bool, username: string, title: string)
    ensures var h := Render(pathname, hasUser, username, title);
      && (h.login <==> !hasUser && pathname != "/login")
      && !(h.login && h.avatar)
      && (h.writeLink ==> h.avatar)
  {
  }

  /** The edit-link container needs both route parameters. */
  lemma EditLink(pathname: string, hasUser: bool, username: string, title: string)
    ensures Render(pathname, hasUser, username, title).editLinkContainer <==> username != "" && title != ""
    ensures !Render(pathname, hasUser, "", title).editLinkContainer
  {
  }
}
