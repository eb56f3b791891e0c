TestResult.DisplayName,TestResult.Outcome,TestResult.Duration,TestResult.ResourceCount,RandomSeed
ActivityCard.ActivityColor (well-formedness),Passed,00:00:00.3209503,76596,0
ActivityCard.ActivityIcon (well-formedness),Passed,00:00:00.3209271,77687,0
ActivityCard.ReadOnlyLabels (correctness),Passed,00:00:00.1852080,423079,0
ActivityCard.UnitOnlyLabels (correctness),Passed,00:00:00.1824165,178451,0
ActivityCard.FormatDurationRoundTrip (correctness),Passed,00:00:00.0800698,155306,0
ActivityCard.HoursMinutesLabelIs (correctness),Passed,00:00:00.0785455,102460,0
ActivityCard.ReadHoursMinutesLabel (correctness),Passed,00:00:00.0677048,67846,0
ActivityCard.ReadHoursThenMinutes (correctness),Passed,00:00:00.0556583,85726,0
ActivityCard.HoursMinutesLabelIs (well-formedness),Passed,00:00:00.0533775,33953,0
ActivityCard.MinutesOnlyLabel (correctness),Passed,00:00:00.0521386,70049,0
ActivityCard.ReadAfterNumber (correctness),Passed,00:00:00.0457705,47228,0
ActivityCard.FormatDuration (well-formedness),Passed,00:00:00.0380160,37317,0
ActivityCard.ReadMinutesOf (correctness),Passed,00:00:00.0372682,43093,0
ActivityCard.MinutesLabelIs (correctness),Passed,00:00:00.0372169,26888,0
ActivityCard.ReadAfterNumber (well-formedness),Passed,00:00:00.0312806,33646,0
ActivityCard.LabelOfHoursMinutes (correctness),Passed,00:00:00.0289174,59702,0
ActivityCard.ReadUnit (well-formedness),Passed,00:00:00.0276558,30515,0
ActivityCard.ReadDuration (well-formedness),Passed,00:00:00.0270508,33014,0
ActivityCard.ReadMinutes (well-formedness),Passed,00:00:00.0255636,28542,0
ActivityCard.HoursAndMinutes (well-formedness),Passed,00:00:00.0200076,4598,0
ActivityCard.HoursAndMinutes (correctness),Passed,00:00:00.0102481,13686,0
