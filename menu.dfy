/** The mobile navigation drawer: a panel that is hidden or shown, and the
    menu button's icon (bars while closed, a cross while open). */
module Menu {

  /** The Font Awesome class the button's icon carries. */
  datatype Icon = Bars | Times

  class MobileMenu {
    /** The panel carries the `hidden` class. */
    var hidden: bool
    /** The icon inside the menu button. */
    var icon: Icon

    /** The icon always matches the panel: bars exactly when it is hidden. */
    ghost predicate Valid()
      reads this
    {
      hidden <==> icon == Bars
    }

    /** The drawer as the page is loaded: closed, showing the bars icon. */
    constructor ()
      ensures Valid() && hidden && icon == Bars
    {
      hidden := true;
      icon := Bars;
    }

    /** `openMobileMenu`: shows the panel and switches the icon to the cross. */
    method Open()
      modifies this
      ensures Valid() && !hidden && icon == Times
    {
      hidden := false;
      icon := Times;
    }

    /** `closeMobileMenu`: hides the panel and switches the icon to the bars,
        whatever the state before; closing a closed menu changes nothing. */
    method Close()
      modifies this
      ensures Valid() && hidden && icon == Bars
      // Idempotence, stated on its own: closing a closed menu changes nothing.
      ensures old(hidden) && old(icon) == Bars ==> hidden == old(hidden) && icon == old(icon)
    {
      hidden := true;
      icon := Bars;
    }

    /** Click on the menu button: closes an open menu, opens a closed one. */
    method ButtonClick()
      requires Valid()
      modifies this
      ensures Valid() && hidden == !old(hidden)
      ensures icon == if old(icon) == Bars then Times else Bars
    {
      var isOpen := !hidden;
      if isOpen {
        Close();
      } else {
        Open();
      }
    }

    /** Click on any link inside the drawer: the drawer closes. */
    method LinkClick()
      modifies this
      ensures Valid() && hidden && icon == Bars
    {
      Close();
    }

    /** The document's `keydown` listener: Escape closes the drawer, every
        other key leaves it as it was. */
    method KeyDown(key: string)
      modifies this
      ensures key == "Escape" ==> hidden && icon == Bars
      ensures key != "Escape" ==> hidden == old(hidden) && icon == old(icon)
    {
      if key == "Escape" {
        Close();
      }
    }
  }
}
