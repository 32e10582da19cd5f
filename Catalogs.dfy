/** The fixed catalogs the program offers: the checklists of `completeProfile`,
    the two daily routines, and the universities `main` passes to
    `selectUniversity`. */
module Catalogs {
  const HabitOptions: seq<string> :=
    ["Group Study", "Solo Study", "Pomodoro", "Last-minute cramming", "Regular review"]
  const InterestOptions: seq<string> :=
    ["Sports", "Coding", "Volunteering", "Music", "Debate", "Entrepreneurship"]
  const LifestyleOptions: seq<string> :=
    ["Non-smoker", "Vegan/Vegetarian", "Fitness Enthusiast", "Gamer", "Night-social"]

  /** The catalog `main` passes to `selectUniversity`. */
  const Universities: seq<string> :=
    ["IBA Karachi", "LUMS Lahore", "NED University", "UET Lahore",
     "University of Karachi", "Sukkur IBA", "Quaid-e-Azam University", "FAST-NU Lahore"]

  const EarlyBird: string := "Early Bird"
  const NightOwl: string := "Night Owl"
}
